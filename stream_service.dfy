/**
 * The receiving side of `chatStreamElicitationResponse`: the request it
 * builds, the checks on the response, and the read loop that keeps a
 * carry-over buffer, cuts it at every "\n\n", trims each block and hands
 * the non-empty ones to the `onChunk` callback, then flushes the rest.
 *
 * Reads are modelled as the already-decoded strings the reader delivered,
 * in order; a read error ends the loop exactly as `done` does, so the
 * chunks are those read before either. Which callback invocations throw
 * is a parameter (`throwing`, by call number).
 */
module StreamService {
  import opened Wrappers
  import opened Strings

  // ---------------------------------------------------------------------
  // The request

  /** The first argument: a plain string or an already-built payload object. */
  datatype PayloadArg<T> = StringArg(s: string) | ObjectArg(obj: T)

  /** The body sent: `{chatMessage: s}` or the object unchanged. */
  datatype Payload<T> = ChatMessage(chatMessage: string) | PassedThrough(obj: T)

  /** `typeof elicitationPayload === 'string' ? { chatMessage } : elicitationPayload`. */
  function WrapPayload<T>(arg: PayloadArg<T>): (p: Payload<T>)
    ensures arg.StringArg? <==> p.ChatMessage?
    ensures arg.StringArg? ==> p.chatMessage == arg.s
    ensures arg.ObjectArg? ==> p.obj == arg.obj
  {
    match arg
    case StringArg(s) => ChatMessage(s)
    case ObjectArg(obj) => PassedThrough(obj)
  }

  const ResponseSegment := "elicitation-response"

  /** `${streamingChatsUri}/${chatId}/${elicitationId}/elicitation-response`. */
  function ElicitationUri(base: string, chatId: string, elicitationId: string): (uri: string)
    ensures |uri| == |base| + |chatId| + |elicitationId| + 3 + |ResponseSegment|
    ensures uri[..|base|] == base
  {
    base + "/" + chatId + "/" + elicitationId + "/" + ResponseSegment
  }

  /** A string without the separator splits into itself alone. */
  lemma SplitNoSeparator(s: string, sep: char)
    requires sep !in s
    ensures Split(s, sep) == [s]
  {
  }

  /** Three separator-free pieces joined by the separator split back into those pieces. */
  lemma SplitThree(a: string, b: string, c: string, sep: char)
    requires sep !in a && sep !in b && sep !in c
    ensures Split(a + [sep] + b + [sep] + c, sep) == [a, b, c]
  {
    var rest := b + [sep] + c;
    SplitFirst(b, c, sep);
    SplitNoSeparator(c, sep);
    assert Split(rest, sep) == [b, c];
    SplitFirst(a, rest, sep);
    Regroup(a, [sep], b, [sep], c);
  }

  /** The path after the base names the chat, then the elicitation, when neither id holds a '/'. */
  lemma ElicitationUriPath(base: string, chatId: string, elicitationId: string)
    requires '/' !in chatId && '/' !in elicitationId
    ensures var uri := ElicitationUri(base, chatId, elicitationId);
            uri[|base|] == '/' && Split(uri[|base| + 1..], '/') == [chatId, elicitationId, ResponseSegment]
  {
    var uri := ElicitationUri(base, chatId, elicitationId);
    assert uri[|base| + 1..] == chatId + ['/'] + elicitationId + ['/'] + ResponseSegment;
    assert '/' !in ResponseSegment;
    SplitThree(chatId, elicitationId, ResponseSegment, '/');
  }

  // ---------------------------------------------------------------------
  // The response checks

  /** What the fetch produced, as far as the loop depends on it. */
  datatype Response = Response(ok: bool, status: nat, statusText: string, errorBody: Option<string>, hasBody: bool)

  /** How the call ends: a thrown error before reading, a callback error from the flush, or the response returned. */
  datatype Outcome =
    | Failed(message: string)
    | CallbackThrew(calls: seq<string>)
    | Completed(calls: seq<string>)

  /** The error thrown before any chunk is read, if the response is unusable. */
  function ResponseError(r: Response): (e: Option<string>)
    ensures e.None? <==> r.ok && r.hasBody
  {
    if !r.ok then
      Some("Streaming request failed: " + NatToString(r.status) + " " + r.statusText + ". "
           + r.errorBody.GetOr("Unable to read error response"))
    else if !r.hasBody then
      Some("Streaming response has no body - server may not support streaming")
    else None
  }

  // ---------------------------------------------------------------------
  // The buffer

  /**
   * Cutting `buffer` at its first "\n\n" until none is left: the raw blocks
   * cut off, in order, and what stays in the buffer.
   */
  function CutAll(buffer: string): (r: (seq<string>, string))
    ensures !HasDoubleNewline(r.1)
    decreases |buffer|
  {
    var i := IndexOfDoubleNewline(buffer);
    if i == -1 then ([], buffer)
    else
      var rest := CutAll(buffer[i + 2..]);
      ([buffer[..i]] + rest.0, rest.1)
  }

  /** Each cut removes exactly a block and "\n\n" from the front: the blocks and the rest put back together are the buffer. */
  lemma {:induction false} CutAllReassembles(buffer: string)
    ensures Join(CutAll(buffer).0 + [CutAll(buffer).1], "\n\n") == buffer
    decreases |buffer|
  {
    var i := IndexOfDoubleNewline(buffer);
    if i != -1 {
      var tail := buffer[i + 2..];
      CutAllReassembles(tail);
      var pieces := CutAll(tail).0 + [CutAll(tail).1];
      CutFirst(buffer, []);
      Assoc([buffer[..i]], CutAll(tail).0, [CutAll(tail).1]);
      JoinCons(buffer[..i], pieces, "\n\n");
      RejoinAt(buffer, i);
    }
  }

  lemma RejoinAt(s: string, i: nat)
    requires DoubleNewlineAt(s, i)
    ensures s == s[..i] + "\n\n" + s[i + 2..]
  {
  }

  /** Appending text after a first "\n\n" does not move it. */
  lemma FirstDoubleNewlineOfAppend(s: string, c: string)
    requires IndexOfDoubleNewline(s) != -1
    ensures IndexOfDoubleNewline(s + c) == IndexOfDoubleNewline(s)
  {
    var i := IndexOfDoubleNewline(s);
    var t := s + c;
    assert DoubleNewlineAt(t, i);
    forall j | 0 <= j < i ensures !DoubleNewlineAt(t, j) {
      assert !DoubleNewlineAt(s, j);
      assert t[j] == s[j] && t[j + 1] == s[j + 1];
    }
  }

  lemma SlicesOfAppend(s: string, c: string, i: nat)
    requires i + 2 <= |s|
    ensures (s + c)[..i] == s[..i] && (s + c)[i + 2..] == s[i + 2..] + c
  {
  }

  /**
   * Cutting is indifferent to where a read ends: cutting `s + c` cuts the
   * blocks of `s`, then the blocks of what `s` left over followed by `c`.
   */
  lemma {:induction false} CutAllAppend(s: string, c: string)
    ensures CutAll(s + c).0 == CutAll(s).0 + CutAll(CutAll(s).1 + c).0
    ensures CutAll(s + c).1 == CutAll(CutAll(s).1 + c).1
    decreases |s|
  {
    var i := IndexOfDoubleNewline(s);
    if i == -1 {
      assert CutAll(s) == ([], s);
      Assoc([], [], CutAll(s + c).0);
    } else {
      FirstDoubleNewlineOfAppend(s, c);
      SlicesOfAppend(s, c, i);
      var tail := s[i + 2..];
      CutAllAppend(tail, c);
      CutAllAt(s, i);
      CutAllAt(s + c, i);
      Assoc([s[..i]], CutAll(tail).0, CutAll(CutAll(tail).1 + c).0);
    }
  }

  /** Cutting at a first "\n\n" at `i`: the block before it, then the cuts of what follows. */
  lemma CutAllAt(buffer: string, i: nat)
    requires i == IndexOfDoubleNewline(buffer)
    ensures i + 2 <= |buffer|
    ensures CutAll(buffer) == ([buffer[..i]] + CutAll(buffer[i + 2..]).0, CutAll(buffer[i + 2..]).1)
  {
  }

  // ---------------------------------------------------------------------
  // The calls

  /** The callback arguments for some raw blocks: each block trimmed, blank ones skipped. */
  function Payloads(blocks: seq<string>): (ps: seq<string>)
    ensures |ps| <= |blocks|
  {
    if blocks == [] then []
    else
      var p := Trim(blocks[|blocks| - 1]);
      Payloads(blocks[..|blocks| - 1]) + (if p != "" then [p] else [])
  }

  lemma {:induction false} PayloadsAppend(a: seq<string>, b: seq<string>)
    ensures Payloads(a + b) == Payloads(a) + Payloads(b)
    decreases |b|
  {
    if b == [] {
      assert a + b == a;
      Assoc(Payloads(a), [], []);
    } else {
      var init, last := b[..|b| - 1], b[|b| - 1];
      assert a + b == (a + init) + [last];
      assert b == init + [last];
      PayloadsSnoc(a + init, last);
      PayloadsSnoc(init, last);
      PayloadsAppend(a, init);
      Assoc(Payloads(a), Payloads(init), if Trim(last) != "" then [Trim(last)] else []);
    }
  }

  /** Every callback argument is non-empty and already trimmed. */
  lemma {:induction false} PayloadsTrimmed(blocks: seq<string>)
    ensures forall k :: 0 <= k < |Payloads(blocks)| ==>
              Payloads(blocks)[k] != "" && Trim(Payloads(blocks)[k]) == Payloads(blocks)[k]
  {
    if blocks != [] {
      PayloadsTrimmed(blocks[..|blocks| - 1]);
      TrimIdempotent(blocks[|blocks| - 1]);
    }
  }

  /** The flushed remainder, if any: the leftover buffer trimmed, unless blank. */
  function Flush(buffer: string): (f: Option<string>)
    ensures f.Some? ==> f.value != "" && Trim(f.value) == f.value
  {
    TrimIdempotent(buffer);
    if Trim(buffer) != "" then Some(Trim(buffer)) else None
  }

  /**
   * The whole run for the text the reads delivered: the calls made, and
   * whether the unguarded flush call threw.
   */
  function Stream(text: string, hasCallback: bool, throwing: set<nat>): (o: Outcome)
    ensures !o.Failed?
    ensures !hasCallback ==> o == Completed([])
  {
    if !hasCallback then Completed([])
    else
      var cut := CutAll(text);
      var inLoop := Payloads(cut.0);
      match Flush(cut.1)
      case None => Completed(inLoop)
      case Some(last) =>
        if |inLoop| in throwing then CallbackThrew(inLoop + [last]) else Completed(inLoop + [last])
  }

  /** The calls made, whichever way the run ends. */
  function CallsOf(o: Outcome): seq<string> {
    match o
    case Failed(_) => []
    case CallbackThrew(calls) => calls
    case Completed(calls) => calls
  }

  /** Every call passes a trimmed, non-empty string. */
  lemma StreamCallsTrimmed(text: string, hasCallback: bool, throwing: set<nat>)
    ensures forall k :: 0 <= k < |CallsOf(Stream(text, hasCallback, throwing))| ==>
              var p := CallsOf(Stream(text, hasCallback, throwing))[k];
              p != "" && Trim(p) == p
  {
    if hasCallback {
      var inLoop := Payloads(CutAll(text).0);
      PayloadsTrimmed(CutAll(text).0);
      var calls := CallsOf(Stream(text, hasCallback, throwing));
      assert calls == inLoop || (Flush(CutAll(text).1).Some? && calls == inLoop + [Flush(CutAll(text).1).value]);
    }
  }

  /** A callback error inside the loop never ends the run: only the flush call can. */
  lemma OnlyFlushThrows(text: string, throwing: set<nat>)
    requires Stream(text, true, throwing).CallbackThrew?
    ensures Flush(CutAll(text).1).Some?
    ensures |Stream(text, true, throwing).calls| == |Payloads(CutAll(text).0)| + 1
    ensures |Payloads(CutAll(text).0)| in throwing
  {
  }

  /**
   * The inner loop: cut the buffer at each first "\n\n", trim the block and
   * pass it on when it is non-empty and there is a callback.
   */
  method CutBuffer(buffer0: string, calls0: seq<string>, hasCallback: bool) returns (buffer: string, calls: seq<string>)
    ensures buffer == CutAll(buffer0).1
    ensures calls == calls0 + (if hasCallback then Payloads(CutAll(buffer0).0) else [])
  {
    buffer, calls := buffer0, calls0;
    ghost var cut: seq<string> := [];
    while IndexOfDoubleNewline(buffer) != -1
      invariant cut + CutAll(buffer).0 == CutAll(buffer0).0
      invariant CutAll(buffer).1 == CutAll(buffer0).1
      invariant calls == calls0 + (if hasCallback then Payloads(cut) else [])
      decreases |buffer|
    {
      var boundaryIndex := IndexOfDoubleNewline(buffer);
      var eventBlock := buffer[..boundaryIndex];
      CutFirst(buffer, cut);
      PayloadsSnoc(cut, eventBlock);
      var payloadChunk := Trim(eventBlock);
      if hasCallback {
        Assoc(calls0, Payloads(cut), if payloadChunk != "" then [payloadChunk] else []);
      }
      buffer := buffer[boundaryIndex + 2..];
      cut := cut + [eventBlock];
      if payloadChunk != "" && hasCallback {
        // a callback error here is caught and logged; the loop goes on
        calls := calls + [payloadChunk];
      }
    }
    assert cut + [] == cut;
  }

  /** One cut moves the first block from the buffer's blocks to the blocks cut so far. */
  lemma CutFirst(buffer: string, cut: seq<string>)
    requires IndexOfDoubleNewline(buffer) != -1
    ensures var i := IndexOfDoubleNewline(buffer);
            && cut + CutAll(buffer).0 == (cut + [buffer[..i]]) + CutAll(buffer[i + 2..]).0
            && CutAll(buffer).1 == CutAll(buffer[i + 2..]).1
  {
    var i := IndexOfDoubleNewline(buffer);
    var rest := CutAll(buffer[i + 2..]).0;
    assert CutAll(buffer).0 == [buffer[..i]] + rest;
    Assoc(cut, [buffer[..i]], rest);
  }

  lemma PayloadsSnoc(blocks: seq<string>, b: string)
    ensures Payloads(blocks + [b]) == Payloads(blocks) + (if Trim(b) != "" then [Trim(b)] else [])
  {
    assert (blocks + [b])[..|blocks|] == blocks;
  }

  /** One read: append the chunk to the buffer, then cut. */
  lemma ReadStep(chunks: seq<string>, j: nat)
    requires j < |chunks|
    ensures Concat(chunks[..j + 1]) == Concat(chunks[..j]) + chunks[j]
  {
    assert chunks[..j + 1][..j] == chunks[..j];
  }

  /** The run read off the leftover buffer and the calls made in the loop. */
  lemma StreamEnd(text: string, hasCallback: bool, throwing: set<nat>)
    ensures var buffer := CutAll(text).1;
      var calls := if hasCallback then Payloads(CutAll(text).0) else [];
      Stream(text, hasCallback, throwing) ==
        if Trim(buffer) != "" && hasCallback then
          if |calls| in throwing then CallbackThrew(calls + [Trim(buffer)]) else Completed(calls + [Trim(buffer)])
        else Completed(calls)
  {
  }

  /**
   * The read loop: append each chunk to the carry-over buffer and cut it.
   * Afterwards the buffer holds what no "\n\n" closed, and the calls are
   * those for every block the reads completed.
   */
  method ReadChunks(chunks: seq<string>, hasCallback: bool) returns (buffer: string, calls: seq<string>)
    ensures buffer == CutAll(Concat(chunks)).1
    ensures calls == if hasCallback then Payloads(CutAll(Concat(chunks)).0) else []
  {
    buffer := "";
    calls := [];
    for j := 0 to |chunks|
      invariant buffer == CutAll(Concat(chunks[..j])).1
      invariant calls == if hasCallback then Payloads(CutAll(Concat(chunks[..j])).0) else []
    {
      ReadStep(chunks, j);
      CutAllAppend(Concat(chunks[..j]), chunks[j]);
      PayloadsAppend(CutAll(Concat(chunks[..j])).0, CutAll(buffer + chunks[j]).0);
      buffer, calls := CutBuffer(buffer + chunks[j], calls, hasCallback);
    }
    assert chunks[..|chunks|] == chunks;
  }

  /** `chatStreamElicitationResponse` from the response check to the returned response. */
  method ChatStreamElicitationResponse(response: Response, chunks: seq<string>, hasCallback: bool, throwing: set<nat>)
    returns (outcome: Outcome)
    ensures ResponseError(response).Some? ==> outcome == Failed(ResponseError(response).value)
    ensures ResponseError(response).None? ==> outcome == Stream(Concat(chunks), hasCallback, throwing)
  {
    var err := ResponseError(response);
    if err.Some? {
      return Failed(err.value);
    }
    var buffer, calls := ReadChunks(chunks, hasCallback);
    StreamEnd(Concat(chunks), hasCallback, throwing);
    if Trim(buffer) != "" && hasCallback {
      var flushed := Trim(buffer);
      calls := calls + [flushed];
      if |calls| - 1 in throwing {
        return CallbackThrew(calls);
      }
    }
    return Completed(calls);
  }
}
