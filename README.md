# solesonic-llm-ui: the streaming chat pipeline, in Dafny

This project models the chat client's streaming pipeline and the string and state utilities around it. It proves properties of that model. Everything is sequential logic over strings, sequences and integers. The project covers:

- the server-sent-event framing: the read loop of `chatStreamElicitationResponse` and `parseSSELines`;
- the transcript updaters and event handlers of the chat screen;
- the rules of the elicitation prompt;
- the `<think>` stripping and line splitting of `toJsx`;
- the markdown block parser and the inline-code splitter of the message formatter;
- the sign-in lock-out kept in local storage;
- the HTTP client's error mapping;
- the chat-history grouping;
- the Ollama model settings form.

Each module follows one source file:

| module | file | form |
|---|---|---|
| `SeeService` | `sse_parser.dfy` | `ParseSseLines` is a method with the source's two loops, proved against the function `Frames`, whose properties are lemmas. |
| `StreamService` | `stream_service.dfy` | The read loop is a method: reads append to a buffer, and an inner loop cuts at `"\n\n"`. The method is proved against `Stream`, which depends only on the concatenated text. |
| `Transcript` | `transcript.dfy` | The pure history updaters of `ChatScreen.jsx`, as functions over `seq<Message>`. |
| `ChatScreen` | `chat_screen.dfy` | The component's state, as a class whose handlers are methods. |
| `ElicitationPrompt` | `elicitation_prompt.dfy` | The prompt's rules, as functions. The rendering is reduced to the values each control is built from. |
| `HtmlFunctions` | `html_functions.dfy` | The `toJsx` text pipeline. |
| `FormatMessage` | `format_message.dfy` | `parseMarkdown` and `parseInlineFormatting` are methods with the source's loops, each proved against a function. The heading, bullet, numbered-item and inline-code expressions are each a matcher, proved against a relational description of what the expression accepts: what it finds is a match, and every input with a match is found. |
| `AuthService` | `auth_service.dfy` | The two local-storage entries are fields of a class. The clock is a parameter. |
| `AxiosClient` | `axios_client.dfy` | `handleError` and its helpers, as functions. |
| `ChatHistory` | `chat_history.dfy` | `truncateMessage` is a function. `groupByDate` is a method with the reduction's loop. The locale date string is a function parameter. |
| `ModelSettings` | `model_settings.dfy` | The settings component's state, as a class whose handlers are methods. |
| `Strings`, `OrderedDict`, `Wrappers` | `strings.dfy`, `ordered_dict.dfy`, `wrappers.dfy` | Shared helpers. A JavaScript object is a `Dict`: a sequence of key/value pairs in insertion order. |

Asynchronous handlers are split at their `await`:
- the part before the `await` returns the request it would send;
- a second method takes the outcome;
- in `ChatScreen`, the outcome is `None` for success and `Some(e)` for the error `e`;
- in `ModelSettings`, the outcome is `Some(answer)` for success and `None` for a failed call.

## Model

| member | source | states |
|---|---|---|
| SeeService.SplitBlocks | src/service/SeeService.js:12 | Splitting at runs of two or more newlines gives at least one block, and no block contains `"\n\n"`. |
| SeeService.SplitBlocksOfJoin | src/service/SeeService.js:12 | Blocks that neither start nor end with a newline and hold no `"\n\n"` are recovered exactly after joining them with `"\n\n"`. |
| SeeService.ReadBlockLines | src/service/SeeService.js:19-28 | The line loop leaves the event name and data that the per-line rule, folded over the block's lines, gives. |
| SeeService.ParseBlock | src/service/SeeService.js:30-31 | A frame is produced only when the event name or the data is non-empty. |
| SeeService.BlockFrame | src/service/SeeService.js:14-31 | A blank block gives no frame. Otherwise a frame comes out exactly when an `event:` line set a non-empty name or the joined data is non-empty. A frame from a block without an `event:` line is named `message`. |
| SeeService.NameSetIffEventLine | src/service/SeeService.js:23-24 | The event name is set exactly when the block has an `event:` line. |
| SeeService.NameIsLastEventLine | src/service/SeeService.js:23-24 | The name is the last `event:` line's text after the colon, trimmed. Later `event:` lines override earlier ones. |
| SeeService.DataIsJoinedPayloads | src/service/SeeService.js:25-26 | The data is the `data:` payloads, untrimmed, joined with `"\n"`, with leading empty payloads absorbed. |
| SeeService.OtherLinesIgnored | src/service/SeeService.js:22-28 | Dropping every line that is neither `event:` nor `data:` leaves the result unchanged. |
| SeeService.ParseSseLines | src/service/SeeService.js:8-36 | The two loops return `Frames(raw)`: the frames of the non-blank blocks, in block order. |
| SeeService.FramesAtMostBlocks | src/service/SeeService.js:14-32 | There are never more frames than blocks. |
| SeeService.FramesOfAppend | src/service/SeeService.js:14-32 | The frames of two block lists in a row are the frames of the first, then those of the second: frames keep block order. |
| SeeService.ParseBlocksAppend | src/service/SeeService.js:14-32 | The block loop over two block lists in a row gives the frames of the first list, then those of the second. |
| SeeService.FrameRoundTrip | src/service/SeeService.js:19-31 | A frame with a non-empty, trimmed, single-line name, and data not starting with a newline, parses back from its `event:`/`data:` encoding unchanged. |
| SeeService.StreamRoundTrip | src/service/SeeService.js:8-36 | Any list of such frames, encoded and joined with `"\n\n"`, parses back to the same list. The empty list gives the empty text, which parses to no frames. |
| StreamService.WrapPayload | src/service/StreamService.js:13-15 | A string payload becomes `{chatMessage: s}`, and any other payload passes through unchanged. |
| StreamService.ElicitationUri | src/service/StreamService.js:17 | The URI starts with the base URI and has the length of its five parts. |
| StreamService.ElicitationUriPath | src/service/StreamService.js:17 | After the base URI and a `/`, the path splits at `/` into exactly the chat id, the elicitation id and `elicitation-response`. |
| StreamService.ResponseError | src/service/StreamService.js:57-72 | Reading is refused, with an error, exactly when the response is not ok or has no body. |
| StreamService.CutAll | src/service/StreamService.js:96-99 | After the inner loop, the buffer holds no `"\n\n"`. |
| StreamService.CutAllReassembles | src/service/StreamService.js:96-98 | Each cut removes exactly a block and `"\n\n"`: the blocks and the remainder, joined with `"\n\n"`, give back the buffer. |
| StreamService.CutAllAppend | src/service/StreamService.js:93-108 | Appending text after a cut gives the same blocks, and the same remainder, as cutting the whole text. The blocks do not depend on how the text is divided into reads. |
| StreamService.CutBuffer | src/service/StreamService.js:95-108 | The inner loop leaves the remainder of `CutAll` and adds the trimmed non-empty blocks as callback calls, when there is a callback. |
| StreamService.ReadChunks | src/service/StreamService.js:80-109 | After all reads, the buffer and the calls depend only on the concatenated text. |
| StreamService.PayloadsTrimmed | src/service/StreamService.js:100-101 | Every block handed to the callback in the loop is trimmed and non-empty. |
| StreamService.PayloadsAppend | src/service/StreamService.js:96-108 | The callback calls for two block lists in a row are the calls for the first list, then those for the second. |
| StreamService.Flush | src/service/StreamService.js:111-114 | The final flush hands over a trimmed, non-empty remainder or nothing. |
| StreamService.Stream | src/service/StreamService.js:78-114 | Reading never fails once it has started, and without a callback nothing is called. |
| StreamService.StreamEnd | src/service/StreamService.js:111-114 | Proof step for `ChatStreamElicitationResponse`: `Stream` unfolded with `Flush` inlined. The run makes the loop's calls, then one flush call when the remainder is not blank, and only that call's exception escapes. |
| StreamService.StreamCallsTrimmed | src/service/StreamService.js:100-114 | Every callback argument, from the loop or the flush, is trimmed and non-empty. |
| StreamService.OnlyFlushThrows | src/service/StreamService.js:102-113 | A run that ends in a callback error made a flush call, and the failing call is the flush. Errors inside the loop are swallowed. |
| StreamService.ChatStreamElicitationResponse | src/service/StreamService.js:57-114 | An unusable response fails before any callback. Otherwise the outcome is `Stream` of the concatenated reads. |
| Transcript.RoleOf | src/chat/ChatMessage.jsx:7-9 | A message type is the assistant's exactly when it is `"ASSISTANT"`. |
| Transcript.SetLast | src/chat/ChatScreen.jsx:45-48 | Replacing the last slot keeps the length and every earlier message. |
| Transcript.DropLast | src/chat/ChatScreen.jsx:150 | Popping keeps exactly the earlier messages. |
| Transcript.AppendToLast | src/chat/ChatScreen.jsx:33-53 | An empty history, or one whose last message is not the assistant's, is unchanged. Otherwise only the last text changes, to the old text (or `""`) plus the chunk. |
| Transcript.AppendToLastTwice | src/chat/ChatScreen.jsx:33-53 | Appending `a` then `b` is appending `a + b`. |
| Transcript.AppendAllIsAppendConcat | src/chat/ChatScreen.jsx:33-53 | Appending a list of chunks one by one appends their concatenation. |
| Transcript.Finalize | src/chat/ChatScreen.jsx:63-81 | Only a last assistant message changes, to its finalized form. Every other message, and a history without one, is unchanged. |
| Transcript.FinalizedText | src/chat/ChatScreen.jsx:69-75 | The final text and model come from the reply when present, else they stay. Streaming stops, and the formatted lines are `toJsx` of the final text. |
| Transcript.FinalizeIdempotent | src/chat/ChatScreen.jsx:63-81 | Finalizing twice with the same reply is finalizing once. |
| Transcript.AdoptChatId | src/chat/ChatScreen.jsx:56-60 | A set chat id is never overwritten. The id changes exactly when it was unset and the reply carries a truthy, different id. |
| Transcript.AdoptAllIsFirstId | src/chat/ChatScreen.jsx:56-60 | When each reply sees the chat id that the replies before it left, an unset chat id becomes the first id any reply carried, and later ids do not overwrite it. |
| Transcript.DropEmptyPlaceholder | src/chat/ChatScreen.jsx:138-154 | A trailing assistant message with missing or blank text is popped. Any other history is unchanged. |
| Transcript.DropEmptyPlaceholderIff | src/chat/ChatScreen.jsx:147-151 | The history shrinks exactly when the last message is the assistant's with missing or blank text. |
| Transcript.Durable | src/chat/ChatScreen.jsx:233 | The filtered history holds no ephemeral message. |
| Transcript.DurableMembers | src/chat/ChatScreen.jsx:233 | A message survives the filter exactly when it was there and is not ephemeral. |
| Transcript.DurableOfDurable | src/chat/ChatScreen.jsx:233 | A history without ephemeral messages is unchanged by the filter. |
| Transcript.NewTurnShape | src/chat/ChatScreen.jsx:233-238 | A new turn is the durable history, then the user's message keyed `user-<ts>`, then a streaming empty assistant placeholder keyed `ai-<ts>`. |
| Transcript.NewTurnStreamsLast | src/chat/ChatScreen.jsx:233-238 | After a new turn on a settled history, only the placeholder is streaming. |
| Transcript.AppendKeepsStreaming | src/chat/ChatScreen.jsx:33-53 | Appending keeps every message before the last one settled. |
| Transcript.FinalizeSettles | src/chat/ChatScreen.jsx:63-81 | Finalizing a streaming last assistant message leaves no message streaming. |
| Transcript.RollbackOnError | src/chat/ChatScreen.jsx:256-266 | After a stream error, a last assistant message with empty text (`!text`, untrimmed) is removed, and one with text stops streaming. A history not ending with an assistant message is unchanged. |
| Transcript.RollbackKeepsPrefix | src/chat/ChatScreen.jsx:208-219 | The rollback keeps every earlier message and removes at most the last one. |
| Transcript.RollbackSettles | src/chat/ChatScreen.jsx:256-266 | After the rollback, no message is streaming. |
| Transcript.FieldsToSendOverridesWin | src/chat/ChatScreen.jsx:169-172 | In the fields sent, an override wins over the form's value. A field without an override keeps its value. |
| Transcript.FieldsToSendNoOverrides | src/chat/ChatScreen.jsx:169-172 | Without overrides, the form's values are sent as they are. |
| Transcript.ElicitationTurnShape | src/chat/ChatScreen.jsx:176-185 | An elicitation turn is the durable history, then the system prompt, then the user's answer (the non-`chatId` values joined with `", "`, without a key), then a streaming placeholder. |
| Transcript.ElicitationTurnStreamsLast | src/chat/ChatScreen.jsx:180-185 | After an elicitation turn on a settled history, only the placeholder is streaming. |
| Transcript.WithWelcome | src/chat/ChatScreen.jsx:97-107 | An empty history gets the ephemeral assistant greeting. A non-empty one is unchanged. |
| Transcript.WelcomeIsDropped | src/chat/ChatScreen.jsx:232-238 | The greeting never survives into the first turn: sending from the welcome screen is sending from an empty history. |
| Transcript.LoadedHistory | src/chat/ChatScreen.jsx:117-124 | A loaded history has one message per stored message, mapped in order. |
| Transcript.LoadedKeysDistinct | src/chat/ChatScreen.jsx:122 | Two stored messages without ids get different keys: `<chatId>-<index>`. |
| Transcript.LoadedHistorySettled | src/chat/ChatScreen.jsx:117-124 | A loaded history is settled and holds no ephemeral message. |
| ChatScreen.Screen.constructor | src/chat/ChatScreen.jsx:19-26 | A new screen has an empty history, no chat, no error, empty input and no elicitation. |
| ChatScreen.Screen.HandleInputChange | src/chat/ChatScreen.jsx:28-30 | Only the input value changes. |
| ChatScreen.Screen.ShowWelcome | src/chat/ChatScreen.jsx:97-107 | Only the history changes, by `WithWelcome`. |
| ChatScreen.Screen.LoadHistory | src/chat/ChatScreen.jsx:109-130 | Without a chat id nothing changes. Otherwise only the history changes, to the loaded one. |
| ChatScreen.Screen.Submit | src/chat/ChatScreen.jsx:226-246 | Whitespace-only input sends nothing and changes nothing. Otherwise the input and chat id are sent, the new turn is added, loading starts, the input clears and the error resets. |
| ChatScreen.Screen.SubmitSettled | src/chat/ChatScreen.jsx:253-268 | Loading stops either way. A failure also records the error and rolls the history back. |
| ChatScreen.Screen.AppendChunk | src/chat/ChatScreen.jsx:33-53 | Only the history changes, by `AppendToLast`. |
| ChatScreen.Screen.FinalizeLast | src/chat/ChatScreen.jsx:63-81 | Only the history changes, by `Finalize`. |
| ChatScreen.Screen.EnsureChatId | src/chat/ChatScreen.jsx:56-60 | Only the chat id changes, by `AdoptChatId`. |
| ChatScreen.Screen.SetActiveElicitation | src/chat/ChatScreen.jsx:132-155 | Opening an elicitation also drops an empty trailing placeholder. Clearing it changes nothing else. |
| ChatScreen.Screen.HandleElicitationChange | src/chat/ChatScreen.jsx:157-162 | Only the named field's value changes. Every other field reads as before, and field names stay unique. |
| ChatScreen.Screen.SubmitElicitation | src/chat/ChatScreen.jsx:164-199 | Without an active elicitation nothing is sent or changed. Otherwise the fields (values overlaid by overrides) are sent for that chat and elicitation, the elicitation turn is added, submitting starts and the error resets. |
| ChatScreen.Screen.ElicitationSettled | src/chat/ChatScreen.jsx:201-223 | Whatever the outcome, the elicitation is closed and submitting stops. A failure also records the error and rolls the history back. |
| ChatScreen.StreamChunks | src/chat/ChatScreen.jsx:33-53 | Streaming chunks into a fresh placeholder leaves their concatenation as its text, with only the last message streaming. |
| ChatScreen.Converse | src/chat/ChatScreen.jsx:226-275 | A successful exchange ends settled, not loading, with the assistant's text being the reply's text when present, else the streamed text. |
| ElicitationPrompt.Properties | src/chat/ElicitationPrompt.jsx:8-9 | A missing schema, or missing properties, gives no properties. |
| ElicitationPrompt.RequiredList | src/chat/ElicitationPrompt.jsx:10 | A `required` that is missing or not an array is read as `[]`. |
| ElicitationPrompt.VisibleFields | src/chat/ElicitationPrompt.jsx:102-103 | The shown fields are exactly the properties other than `chatId`. |
| ElicitationPrompt.VisibleFieldsCount | src/chat/ElicitationPrompt.jsx:13 | Filtering removes one entry when `chatId` is a property, else none. |
| ElicitationPrompt.BooleanOnlyIff | src/chat/ElicitationPrompt.jsx:13-14 | A prompt is boolean-only exactly when one property besides `chatId` exists and its type is `boolean`. |
| ElicitationPrompt.FieldValue | src/chat/ElicitationPrompt.jsx:21 | A text field shows the stored value, or `""` without one. |
| ElicitationPrompt.PlaceholderText | src/chat/ElicitationPrompt.jsx:84 | The placeholder is the description if truthy, else `"Format: "` and the format if given, else `""`. |
| ElicitationPrompt.TokensDistinct | src/chat/ElicitationPrompt.jsx:31-59 | The buttons report exactly `cancel`, `decline` and `accept`, one per button. |
| ElicitationPrompt.Click | src/chat/ElicitationPrompt.jsx:30-63 | A click always reports its token through `onChange`. It also submits the single override `{field: token}` exactly when the prompt is boolean-only. |
| ElicitationPrompt.ControlFor | src/chat/ElicitationPrompt.jsx:20-95 | A control is disabled exactly while submitting or for `chatId`. It is a button group exactly for a boolean property. |
| ElicitationPrompt.Render | src/chat/ElicitationPrompt.jsx:3-6 | Nothing is rendered exactly when there is no elicitation. |
| ElicitationPrompt.RenderedControls | src/chat/ElicitationPrompt.jsx:98-108 | There is one control per shown field, in order. None is for `chatId`, and each is disabled exactly while submitting. |
| HtmlFunctions.IndexOfFrom | src/util/htmlFunctions.jsx:10 | Finds the first occurrence at or after a position, or reports that none exists. |
| HtmlFunctions.RemoveThinkBlock | src/util/htmlFunctions.jsx:10 | Shortest match: a block is removed up to the first `</think>` after its `<think>`, and the rest is processed on its own. |
| HtmlFunctions.RemoveThinkUnclosed | src/util/htmlFunctions.jsx:10 | Without any `</think>`, nothing is removed: an unclosed `<think>` stays. |
| HtmlFunctions.RemoveThinkKeepsOpenFreePrefix | src/util/htmlFunctions.jsx:10 | A prefix at none of whose positions `<think>` starts is kept verbatim, in front of the rest, whatever follows it. |
| HtmlFunctions.RemoveThinkKeepsPlainPrefix | src/util/htmlFunctions.jsx:10 | The special case of a prefix without `<`: it is kept verbatim, in front of the rest. |
| HtmlFunctions.RemoveThinkOpenFree | src/util/htmlFunctions.jsx:10 | Text in which no `<think>` starts is left alone, even if it holds other tags or a `</think>`. |
| HtmlFunctions.RemoveThinkPlain | src/util/htmlFunctions.jsx:10 | The special case of text without `<`: it is left alone. |
| HtmlFunctions.ThinkBetween | src/util/htmlFunctions.jsx:10 | A think block between plain texts is removed, and the texts on either side are kept, in order. |
| HtmlFunctions.ThinkAtEnd | src/util/htmlFunctions.jsx:10 | A trailing think block is removed, and the text before it is kept. |
| HtmlFunctions.TwoThinksBetween | tests/htmlFunctions.test.jsx:20-25 | Two think blocks are removed separately, and the text between them survives. |
| HtmlFunctions.ThinkAcrossLinesBetween | tests/htmlFunctions.test.jsx:27-32 | A think block spanning lines is removed, and the line breaks around it stay, leaving an empty line. |
| HtmlFunctions.IndexOfBreak | src/util/htmlFunctions.jsx:11 | Finds the first `\r` or `\n`, or the end of the text. |
| HtmlFunctions.SplitLines | src/util/htmlFunctions.jsx:11 | Splitting gives at least one line, and no line holds `\r` or `\n`. |
| HtmlFunctions.SplitLinesJoin | src/util/htmlFunctions.jsx:11 | Lines without breaks, joined with `\n`, split back into the same lines. |
| HtmlFunctions.JoinSplitLines | src/util/htmlFunctions.jsx:11 | Joining the lines with `\n` gives the text with every `\r\n`, `\r` and `\n` normalised to `\n`. |
| HtmlFunctions.SplitLinesCount | src/util/htmlFunctions.jsx:11 | There is one line more than there are breaks, with `\r\n` counted once. |
| HtmlFunctions.DisplayedLines | src/util/htmlFunctions.jsx:10-15 | `toJsx` always renders at least one line. |
| HtmlFunctions.DisplayedMissing | tests/htmlFunctions.test.jsx:34-37 | A missing text renders as the single line `No Message In Response`. |
| HtmlFunctions.DisplayedPlainLine | tests/htmlFunctions.test.jsx:7-11 | A single line without tags renders as itself. |
| HtmlFunctions.ExamplePlain | tests/htmlFunctions.test.jsx:7-11 | The test's plain greeting renders as one line. |
| HtmlFunctions.ExampleThinkInLine | tests/htmlFunctions.test.jsx:13-18 | The test's in-line think block is removed. |
| HtmlFunctions.ExampleTwoThinks | tests/htmlFunctions.test.jsx:20-25 | The test's two think blocks are removed. |
| HtmlFunctions.ExampleThinkAcrossLines | tests/htmlFunctions.test.jsx:27-32 | The test's multi-line think block leaves the lines `Hello,`, `""` and `world!`. |
| FormatMessage.RunOf | src/util/formatMessage.jsx:48 | Counts exactly the leading run of one character. |
| FormatMessage.DigitRun | src/util/formatMessage.jsx:72 | Counts exactly the leading run of decimal digits. |
| FormatMessage.SpaceThenTextSound | src/util/formatMessage.jsx:48 | When the `\s+(.+)$` matcher finds content, the content is a match of that expression. The match's `.+` starts after the leading white space, but leaves it at least one character. |
| FormatMessage.SpaceThenTextComplete | src/util/formatMessage.jsx:48 | Whenever `\s+(.+)$` can match, the matcher finds the greedy match, with the shortest content. |
| FormatMessage.HeadingMatches | src/util/formatMessage.jsx:48 | The heading matcher accepts exactly 1 to 6 `#`, then white space, then content, and reports the number of `#` as the level. |
| FormatMessage.DigitRunDigits | src/util/formatMessage.jsx:72 | Every character of the counted run is a decimal digit. |
| FormatMessage.DigitRunExact | src/util/formatMessage.jsx:72 | A run of digits followed by a non-digit is exactly what `DigitRun` counts. |
| FormatMessage.IndentEnd | src/util/formatMessage.jsx:60 | White space up to a visible character is exactly the leading white space: the indentation that `[\s]*` can consume. |
| FormatMessage.BulletMatches | src/util/formatMessage.jsx:60 | The bullet matcher accepts exactly the lines of the shape: white space, one of `-`, `*` or `+`, white space, then content. What it finds has that shape, with the indentation ending at the leading white space. Any line of that shape is found, at that indentation, with content no longer than any other match's. |
| FormatMessage.BulletSound | src/util/formatMessage.jsx:60 | What the bullet matcher finds is a match of the expression after the line's leading white space. |
| FormatMessage.BulletComplete | src/util/formatMessage.jsx:60 | Every match of the bullet expression starts its bullet at the end of the leading white space and is found, with the shortest content. |
| FormatMessage.NumberedMatches | src/util/formatMessage.jsx:72 | The numbered matcher accepts exactly the lines of the shape: white space, one or more digits, a dot, white space, then content. What it finds has that shape over the whole leading white space and the whole digit run. Any line of that shape is found, with content no longer than any other match's. |
| FormatMessage.NumberedSound | src/util/formatMessage.jsx:72 | What the numbered matcher finds is a match of the expression after the leading white space and the whole digit run. |
| FormatMessage.NumberedComplete | src/util/formatMessage.jsx:72 | Every match of the numbered expression has the leading white space as its indentation and the whole digit run as its number, and is found, with the shortest content. |
| FormatMessage.NumberedAfterIndentSound | src/util/formatMessage.jsx:72 | Past the indentation, what the matcher finds is the whole digit run, a dot, then a match of `\s+(.+)$`. |
| FormatMessage.NumberedAtSound | src/util/formatMessage.jsx:72 | Past a run of at least one digit, what the matcher finds follows a dot and is a match of `\s+(.+)$`. |
| FormatMessage.NumberedAfterIndentComplete | src/util/formatMessage.jsx:72 | Past the indentation, every match of `(\d+)\.\s+(.+)$` uses the whole digit run and is found, with the shortest content. |
| FormatMessage.NumberedShift | src/util/formatMessage.jsx:72 | A match after blank indentation is a match of the whole line's expression. |
| FormatMessage.NumberedUnshift | src/util/formatMessage.jsx:72 | A match of the whole line's expression is, after its indentation, a match of the rest. |
| FormatMessage.HeadingLine | src/util/formatMessage.jsx:48-56 | `level` times `#`, a space and the content form a heading of that level with that content. |
| FormatMessage.BulletLine | src/util/formatMessage.jsx:60-69 | Indentation, one of `-`, `*` or `+`, a space and the content form an unordered item with that content. |
| FormatMessage.NumberedLine | src/util/formatMessage.jsx:72-81 | Indentation, a number, a dot, a space and the content form an ordered item. Its content excludes the number. |
| FormatMessage.BlankIsBreak | src/util/formatMessage.jsx:84-88 | A blank line outside a code block is a break. |
| FormatMessage.PlainIsParagraph | src/util/formatMessage.jsx:89-95 | A line starting with a visible character that opens no heading or list item is a paragraph, untrimmed. |
| FormatMessage.ParseMarkdown | src/util/formatMessage.jsx:8-109 | The line loop returns `Markdown(text)`, and empty text gives no elements. |
| FormatMessage.ParseLines | src/util/formatMessage.jsx:19-96 | The line loop leaves its four variables as `Run(lines)`: the state machine's state after every line. |
| FormatMessage.ParseLine | src/util/formatMessage.jsx:20-95 | One pass of the loop body is the state machine's step. |
| FormatMessage.RunStep | src/util/formatMessage.jsx:19-96 | After line `i`, the state is one step from the state after the lines before it. |
| FormatMessage.RunSnoc | src/util/formatMessage.jsx:19-96 | Adding a line at the end takes one step from the state of the lines before it. |
| FormatMessage.PlainLines | src/util/formatMessage.jsx:42-95 | Without fences, each line gives exactly one element, in order, classified by itself, and code mode never starts. |
| FormatMessage.CodeCollects | src/util/formatMessage.jsx:42-45 | Inside a code block, lines are collected verbatim, and no element is emitted. |
| FormatMessage.OpenBlock | src/util/formatMessage.jsx:23-27 | A fence outside a code block opens one, with the text after the backticks, trimmed, as its language. |
| FormatMessage.CloseBlock | src/util/formatMessage.jsx:28-38 | A fence inside a code block emits the collected lines joined with `\n`, keyed by the fence's line, and leaves code mode. |
| FormatMessage.FencedBlock | src/util/formatMessage.jsx:23-45 | A fenced block adds exactly one code block, holding its body lines joined with `\n`. |
| FormatMessage.UnclosedBlock | src/util/formatMessage.jsx:98-106 | An unclosed code block is emitted, keyed `code-end`, only if it collected a line. |
| FormatMessage.ElementsAtMostLines | src/util/formatMessage.jsx:19-106 | There are never more elements than lines. |
| FormatMessage.Format | src/util/formatMessage.jsx:211-216 | There is no output exactly for a missing, empty or blank text. Otherwise the output is the parsed blocks. |
| FormatMessage.NextTick | src/util/formatMessage.jsx:118 | Finds a position at or after the start: a backtick, or the end of the text. |
| FormatMessage.NextTickSkips | src/util/formatMessage.jsx:118 | No backtick lies between the start and the position found, so the one found is the next. |
| FormatMessage.FindCode | src/util/formatMessage.jsx:118-122 | Finds the first inline code span at or after a position. No span starts before the one found. |
| FormatMessage.NoSpanFromMeans | src/util/formatMessage.jsx:118-122 | When no code span is found from a position, no backtick pair after it encloses a non-empty, backtick-free run. |
| FormatMessage.ParseInlineFormatting | src/util/formatMessage.jsx:111-136 | The parts are exactly `Inline(text)`: the text cut at each leftmost span `exec` finds, then the rest. The list is never empty, and the empty text gives one empty `txt-0` part. The parts, with inline code re-wrapped in backticks, reassemble the input. Text parts hold no code span, and keys count up. |
| FormatMessage.CutAtSpans | src/util/formatMessage.jsx:118-129 | The `exec` loop ends with exactly the parts `CutParts(text, 0, [])` and the `lastIndex` `CutEnd(text, 0)` that leftmost matching from index 0 gives. The parts are empty exactly when no span was found. They reassemble the text up to the last span's end, no span starts after it, and they are well formed. |
| FormatMessage.PushSpan | src/util/formatMessage.jsx:123-129 | One match keeps the earlier parts as a prefix. It appends the text since the last match, if any, then the span, keyed on from the counter. `lastIndex` moves past the closing backtick. The parts stay well formed and reassemble the text up to there. |
| FormatMessage.CutEnd | src/util/formatMessage.jsx:118-129 | Where leftmost matching from a position stops: at or after the start, within the text, and no span is found from there. |
| FormatMessage.CutStep | src/util/formatMessage.jsx:122-129 | At a found span, the match lies after the start with its closing backtick inside the text. Cutting on from just past it, with its parts added, gives the same parts and end. |
| FormatMessage.CutStop | src/util/formatMessage.jsx:122 | Where no span is found, the loop stops: no parts are added and the end is the current index. |
| FormatMessage.CutReassembles | src/util/formatMessage.jsx:118-129 | From any prefix that reassembles the text before the index and is well formed, leftmost cutting gives well-formed parts that reassemble the text up to where it stops. |
| FormatMessage.CutReassemblesStep | src/util/formatMessage.jsx:123-129 | One match of that cutting keeps the parts well formed and reassembling, and leaves the final parts and end unchanged. |
| FormatMessage.InlineReassembles | src/util/formatMessage.jsx:111-136 | For every text, the reference cut reassembles the text, and it is well formed unless the text is empty. |
| FormatMessage.PushSpanParts | src/util/formatMessage.jsx:123-129 | Adding one match's parts to a well-formed prefix of the text keeps it well formed. It then reassembles the text up to the closing backtick. |
| AuthService.Recent | src/service/AuthService.js:86 | Pruning never lengthens the list. |
| AuthService.RecentMembers | src/service/AuthService.js:86 | A failure time is kept exactly when it was stored and `now - t` is less than five minutes (strict). |
| AuthService.RecentAppend | src/service/AuthService.js:86 | Pruning keeps the stored order. |
| AuthService.FailuresAfter | src/service/AuthService.js:85-87 | The new list is the pruned list with `now` at the end. |
| AuthService.ThreeStrikes | src/service/AuthService.js:85-91 | Three failures within five minutes, with the clock not going back, always reach the limit, whatever was stored. |
| AuthService.AuthStore.AuthFailure | src/service/AuthService.js:83-94 | The store holds the pruned list plus `now`. The block end is set to `now` plus five minutes exactly when the list has at least three entries, and is otherwise unchanged. |
| AuthService.AuthStore.constructor | src/service/AuthService.js:6-7 | Empty storage: neither the failure list nor the block end is stored. |
| AuthService.AuthStore.IsBlocked | src/service/AuthService.js:95-119 | With no block stored, the answer is false. Otherwise it is `now < blockedUntil`, and a running block deletes the failure list. |
| AuthService.AuthStore.RemainingBlockTime | src/service/AuthService.js:120-128 | The remaining time is never negative. It is positive exactly while blocked, and it reaches the block's end. |
| AuthService.ThreeFailuresBlock | src/service/AuthService.js:83-112 | Three failures within five minutes block sign-in from the third one until five minutes after it. |
| AxiosClient.NewClientError | src/client/AxiosClient.js:4-13 | The error carries the message, verb and URI. Its stack is replaced only when one is supplied. |
| AxiosClient.Detail | src/client/AxiosClient.js:97-101 | The detail is the body's message when truthy, else the status text. A missing body reads as `{}`. |
| AxiosClient.HandleError | src/client/AxiosClient.js:90-120 | With `noOp`, nothing is returned and nothing is thrown. With a response, a SYSTEM message is returned. Otherwise a client error is thrown, carrying the verb and URI, reading "Network error or DNS issue" exactly when a request went out, else "Request failed". |
| AxiosClient.StatusMessageParts | src/client/AxiosClient.js:101 | The message's leading digits read back as the status code, followed by `": "`, and the message ends with the detail. |
| AxiosClient.NotFoundMessage | tests/AxiosClient.test.js:73-90 | The test's 404 becomes `404: GET - https://example.com Resource not found`. |
| AxiosClient.AuthHeaderCarriesToken | src/client/AxiosClient.js:69-75 | The options carry exactly one header, `Authorization`, whose value is `Bearer ` followed by the token. |
| ChatHistory.Truncate | src/chat/ChatHistory.jsx:43-44 | A message that fits is returned whole. Otherwise the result is the first `length` characters plus `...`, of length `length + 3`. The result always starts with the message's first `min(len, length)` characters. |
| ChatHistory.TruncateIdempotent | src/chat/ChatHistory.jsx:43-44 | A message that fits is unchanged, and truncating a truncated label changes nothing. |
| ChatHistory.FirstMessageLabel | src/chat/ChatHistory.jsx:83 | The label is the first message's text when truthy, else `No messages yet`. It is never empty. |
| ChatHistory.ItemLabelBounds | src/chat/ChatHistory.jsx:83-90 | A chat item's label is never empty and at most 28 characters long. |
| ChatHistory.OnDayMembers | src/chat/ChatHistory.jsx:47-54 | A chat is listed under a day exactly when it is in the list and its date key is that day. |
| ChatHistory.GroupedGet | src/chat/ChatHistory.jsx:47-54 | The group under a key holds exactly the chats with that key, in input order. There is a group only for a key that occurs. |
| ChatHistory.GroupedUnique | src/chat/ChatHistory.jsx:47-54 | The groups form an object: one entry per key. |
| ChatHistory.EachChatOneGroup | src/chat/ChatHistory.jsx:47-54 | Every chat is in the group of its own date, and in no other. |
| ChatHistory.GroupByDate | src/chat/ChatHistory.jsx:47-55 | The reduction's loop returns `Grouped(chats)`. |
| ModelSettings.AvailableMembers | src/user/OllamaModelSettings.jsx:30-31 | An installed model is offered exactly when no configured model has its `model` value. |
| ModelSettings.AvailableAppend | src/user/OllamaModelSettings.jsx:31 | Filtering keeps the installed models' order. |
| ModelSettings.Available | src/user/OllamaModelSettings.jsx:30-31 | The offered models are never more than the installed ones. |
| ModelSettings.FindByName | src/user/OllamaModelSettings.jsx:108 | A found model is installed and has the name. Nothing is found exactly when no installed model has it. |
| ModelSettings.FindByNameFirst | src/user/OllamaModelSettings.jsx:108 | The first installed model with the name is the one found. |
| ModelSettings.FormFromInstalled | src/user/OllamaModelSettings.jsx:111-120 | Picking an installed model sets the name and the model to its `model` value, or `""`. |
| ModelSettings.FormFromSelected | src/user/OllamaModelSettings.jsx:72-79 | The edit form takes the selected model's name and details and has no `model` field. |
| ModelSettings.FormFromCreated | src/user/OllamaModelSettings.jsx:184-192 | After a create, the form shows the new model's name and model, or `""`. |
| ModelSettings.FormFromUpdated | src/user/OllamaModelSettings.jsx:218-226 | After an update, the form shows the updated model's name, details and size, and has no `model` field. |
| ModelSettings.ChangedForm | src/user/OllamaModelSettings.jsx:147-156 | Editing the name sets the name and the model to the value. Any other field leaves the name, model, details and size alone. |
| ModelSettings.ChangedFormCheckboxes | src/user/OllamaModelSettings.jsx:149 | A checkbox takes `checked`, and every other checkbox keeps its state. |
| ModelSettings.CreateData | src/user/OllamaModelSettings.jsx:163-179 | Nothing is sent exactly when the name is empty. Otherwise the form is sent with `model` set to `formData.model` or else the name. |
| ModelSettings.UpdateData | src/user/OllamaModelSettings.jsx:193-211 | Nothing is sent exactly when the name is empty. Otherwise the model equals the name, the details come from the selected model when it has them, and the size is the selected model's. |
| ModelSettings.ReplaceByIdEffect | src/user/OllamaModelSettings.jsx:214-216 | An update replaces exactly the entries with the updated model's id, and every other entry stays. |
| ModelSettings.ReplaceById | src/user/OllamaModelSettings.jsx:214-216 | Replacing by id keeps the list's length. |
| ModelSettings.Settings.constructor | src/user/OllamaModelSettings.jsx:7-20 | A new component has empty lists, no selection, neither flow, and the initial form. |
| ModelSettings.Settings.ModelsFetched | src/user/OllamaModelSettings.jsx:36-49 | The models are the answer, or none. The first is selected when nothing was selected. |
| ModelSettings.Settings.InstalledModelsFetched | src/user/OllamaModelSettings.jsx:51-61 | The installed models are the answer, or none, and nothing else changes. |
| ModelSettings.Settings.RefreshAvailable | src/user/OllamaModelSettings.jsx:27-34 | The offered models are recomputed only when both lists are non-empty, and nothing else changes. |
| ModelSettings.Settings.SelectModel | src/user/OllamaModelSettings.jsx:63-67 | The model is selected and both flows end. |
| ModelSettings.Settings.EditClick | src/user/OllamaModelSettings.jsx:69-84 | The form is filled from the selected model, and the edit flow starts. |
| ModelSettings.Settings.CreateClick | src/user/OllamaModelSettings.jsx:86-100 | The form is cleared, the installed pick and the selection are cleared, and the create flow starts. |
| ModelSettings.Settings.InstalledModelSelect | src/user/OllamaModelSettings.jsx:102-135 | The pick is recorded. An empty pick clears the form, and a found model fills it. A name no installed model has leaves the form unchanged. |
| ModelSettings.Settings.InputChange | src/user/OllamaModelSettings.jsx:137-158 | Name edits are ignored while creating from an installed model. Otherwise the form changes by `ChangedForm`. |
| ModelSettings.Settings.Submit | src/user/OllamaModelSettings.jsx:160-213 | Create sends `CreateData` and update sends `UpdateData` for the selected id. An empty name sends nothing and keeps the flow. A sent request also keeps both flags: they clear only once the call settles. Outside both flows, both flags clear. |
| ModelSettings.Settings.CreateSettled | src/user/OllamaModelSettings.jsx:181-192 | A created model is appended and selected, the form shows it, and both flows end. A failed call changes nothing. |
| ModelSettings.Settings.UpdateSettled | src/user/OllamaModelSettings.jsx:213-229 | The updated model replaces its id's entries and is selected, the form shows it, and both flows end. A failed call changes nothing. |
| ModelSettings.Settings.Cancel | src/user/OllamaModelSettings.jsx:235-238 | Both flows end, and nothing else changes. |
| Strings.JoinSplit | src/service/SeeService.js:22 | Splitting at a separator and joining with it gives back the text. |
| Strings.SplitJoin | src/service/SeeService.js:22 | Parts without the separator, joined and split again, come back unchanged. |
| Strings.TrimIdempotent | src/service/StreamService.js:100 | Trimming twice is trimming once. |
| Strings.Trim | src/service/StreamService.js:100 | A trimmed text is empty, or starts and ends with a visible character. |
| Strings.TrimOfTrimmed | src/service/StreamService.js:100 | A text that starts and ends with a visible character is unchanged by trimming. |
| Strings.TrimEmptyIffBlank | src/service/SeeService.js:15 | A text trims to `""` exactly when it is all white space. |
| Strings.IndexOfDoubleNewline | src/service/StreamService.js:96 | Finds the first `"\n\n"`, and reports -1 exactly when there is none. |
| Strings.NatToStringRoundTrip | src/chat/ChatScreen.jsx:122 | A number's decimal digits read back as the number. |
| OrderedDict.GetSet | src/chat/ChatScreen.jsx:158-161 | After writing a key, reading it gives the new value, and every other key reads as before. |
| OrderedDict.SetKeys | src/chat/ChatHistory.jsx:51 | Writing a new key appends it to the key order, and writing an existing key keeps the order. |
| OrderedDict.GetMerge | src/chat/ChatScreen.jsx:169-172 | In a spread `{...a, ...b}`, a key of `b` reads from `b` and any other key from `a`. |

## Left out

- Transcript.AdoptAllIsFirstId: assumes each reply sees the chat id set by the replies before it. In the running client, every reply of one send is handled by a callback that captured `chatId` when the send began (src/chat/ChatScreen.jsx:84-95 and 249-251). So when a chat starts without an id, every reply that carries one calls `setChatId`, and the last such id is the one kept.
- Network I/O. This covers `fetch`, the stream reader, `TextDecoder`, the axios verb methods, `buildUrl`, every service wrapper, and the GET that `authFailure` sends before touching storage. A read delivers an already-decoded string. A read error ends the loop the same way `done` does.
- A `fetch` that rejects (src/service/StreamService.js:44-53). This is a connection error before any response, and it is not part of this model. Only the checks on a response that did arrive are modelled.
- Timers and logging. This covers the abort timeout, the `console` calls and the refocus `setTimeout`.
- The clock and random keys. `Date.now()` and `Math.random()` are parameters: `now` and `stamp`. Whether keys are unique therefore depends on the caller.
- The frame dispatcher. `chatService.handleStreamChunk` and `chatService.chatStream` are called by `ChatScreen.jsx` but are not defined in `ChatService.js`. So the routing of `chunk`/`done`/`elicitation` frames is not modelled. The reducers it would call are modelled, and so is their composition over a whole stream (`ChatScreen.Converse`).
- React scheduling. Each `setState` takes effect atomically, in call order. Stale closures over state are not modelled.
- Required-field validation for elicitations. `ElicitationPrompt.jsx` builds the required set (line 11) but never uses it, so submitting has no gate.
- The storage-unavailable branch of `isBlocked` (src/service/AuthService.js:99-106). It calls `this.authFailure` from an arrow function, where `this` is not the service. Storage is assumed to work.
- The Keycloak getters (src/service/AuthService.js:16-74).
- AuthService.AuthStore: local storage is two typed fields, `failures` and `blockedUntil`, rather than a map from strings to strings. The JSON and `parseInt` round trip of the stored values is assumed exact, and a stored value that does not parse is not modelled.
- ChatHistory.Truncate: lengths count characters. JavaScript counts UTF-16 code units, so a message holding characters outside the Basic Multilingual Plane may be cut at a different place.
- Key order. The model assumes that no key is integer-like, and takes `Object.keys`/`Object.entries` order to be insertion order. JavaScript lists integer-like keys such as `"1"` first, in ascending order. Elicitation field names come from the server's `requestedSchema.properties` (src/chat/ElicitationPrompt.jsx:8-9), so a field named `"1"` would come first in the running client but keeps its schema position here. This affects the orders stated by `ElicitationPrompt.VisibleFields`, `ElicitationPrompt.RenderedControls` and the elicitation summary `Transcript.Summary` (src/chat/ChatScreen.jsx:176-178). The locale date strings and the fixed form field names are not integer-like.
- ModelSettings: the model flags are booleans, with a missing flag read as false. `details` is an opaque optional string. `size` is an optional integer. The select in the create flow matches by `name`, as the source does (src/user/OllamaModelSettings.jsx:108).
- Floating point. `formatSize` and the size in megabytes are not modelled.
- Rendering. All JSX, CSS, Linkify and routing are left out. This includes the bold/italic marker pass of `formatInlineText` (src/util/formatMessage.jsx:138-187) and `renderInlineContent`, beyond which parts it is given.
- The locale date string. `toLocaleDateString` is the function parameter `dateKey`, applied to the chat's timestamp.
- Behaviour that is easy to misread, modelled exactly as the code has it:
  - a placeholder is popped only when it is an assistant message with missing or blank text;
  - the stream-error rollback tests `!text` without trimming;
  - blocks are split on runs of blank lines, not single blank lines.
