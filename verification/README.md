# llmleaf: verified models of the wire-facing core

This project models the parts of llmleaf in which bytes arrive in arbitrary pieces, tokens must decode in
exactly one way, or several threads share state, and proves what each of them promises for every
input and every run. `dafny verify dfyconfig.toml` checks all of it.

| Files | What they model |
|---|---|
| `Common`, `Bits` | Byte strings, splitting and joining, bitwise operations on natural numbers. |
| `Utf8`, `Utf8Replacement` | The UTF-8 decoder of section 8.1.1 of the WHATWG Encoding Standard as a state machine, the encoder, and the strict decoder; what the decoder makes of malformed input. |
| `RustStream`, `TypeScriptStream`, `GoStream` | The three clients' streaming decoders: buffers, end flags, sticky errors, final flushes. |
| `EventSource`, `EventSourceRefinement`, `GoEventSource`, `RustEventSource` | Sections 9.2.5 and 9.2.6 of the HTML Living Standard, and the TypeScript, Go and Rust event parsers against them. |
| `RustReading`, `GoReading` | What the Rust and Go event streams give for any body and either ending, chat and Responses. |
| `WellFormedStreams` | All three clients and the standard agree on streams whose events are single lines. |
| `StreamAgreement`, `TurnAgreement` | The server-sent event printer; all three decoders invert it, on chat streams and on Responses turns. |
| `LineAgreement`, `NdjsonAgreement` | Decoding then splitting against splitting then decoding; the two NDJSON readers against each other. |
| `Base64`, `BatchId`, `Embedding` | Base64 (RFC 4648), opaque batch and file ids, and embeddings as little-endian words. |
| `Router`, `Health` | Model resolution, and the cooldown table with its lock sections interleaved. |
| `EventBus`, `UsageReporter` | The lossy ring and the batching `select!` loop. |
| `Multipart` | The transcription upload and its reading back by section 5.1.1 of RFC 2046. |
| `ResponseItems`, `GoItems`, `RustItems`, `TypeScriptItems`, `ItemAgreement`, `ItemReading`, `ItemRepair` | The response item codec, written three times, on what the clients write and on any JSON. |

## How the model is built

- Code that changes state is a class or a method with the source's fields, loops and early returns, proved
  against a specification function: the decoders against functions of the whole byte string, the router and
  the health table against functions of their configuration and history. Pure code is functions.
- Bytes are integers from 0 to 255 and text is a sequence of Unicode scalar values. JSON text parsing is an
  arbitrary function of the payload, the HMAC an arbitrary function from bytes to 16 bytes, an `f32` its
  32-bit pattern.
- A transport is the list of what polling it gives: nothing yet, a chunk (possibly empty), or a failure. A
  TypeScript generator is the list it yields and whether it returns or throws.
- The threads of `Health` run one lock section at a time; any interleaving of invocations, lock sections and
  returns is a run. The runs of `UsageReporter` are arbitrary sequences of emissions, closing of the senders
  and turns of the loop, each turn with whichever branch `select!` picks and whether its POST succeeds; what is
  emitted while a request is out comes behind its turn.

## Where a promise needs a condition

- Text with no carriage return, line feed and boundary line inside is not enough for the upload to read back:
  a field or audio body that starts with the boundary line is cut off, because the line end that closes its
  header completes the delimiter (`Multipart.DelimiterFreeIsNotEnough`). `Multipart.UploadRoundTrip` gives the
  exact condition.
- The TypeScript line splitter drops a leading byte order mark and the Rust one keeps it; apart from that they
  agree (`LineAgreement.DecodeThenSplit`).
- The TypeScript event parser yields an event that no blank line closed, which the HTML standard discards, and
  ignores a `data` line without a colon, which the standard reads as an empty value. It ends lines at LF and
  CRLF only, where the standard also ends one at a lone carriage return: the lines are the same exactly when
  there is none (`EventSourceRefinement.LinesAgreeIff`). On such bodies, with closed events and no sentinel, the
  payloads are right exactly when no `data` line lacks its colon (`EventSourceRefinement.MeetsStandard`,
  `EventSourceRefinement.ColonlessExactly`).
- The Go event loop follows the standard, colon-less `data` lines included, but trims every trailing newline of
  an event's data where the standard removes one, and also flushes an unclosed event: `data: x` and an empty
  `data:` line differ (`GoEventSource.EmptyLastLineDiffers`). It also keeps a leading byte order mark, which the
  standard drops, and so does not know the first line for the field it is: the mark and `data: x` give no event
  (`GoEventSource.MarkHidesEvent`). On bodies with LF or CRLF line ends and lines below the limit
  `GoEventSource.MeetsStandardExactly` says exactly when nothing of this happens without a mark, and
  `GoEventSource.MarkedMeetsStandardExactly` behind one, every event closed.
- The Rust chat stream does not collect events: every `data:` line is an item, trimmed, unless it is blank. Its
  items are the standard's events exactly when every closed event is one `data:` line with a value that is not
  blank at either end, and an event left open has only blank ones; behind a byte order mark, which it keeps as Go
  does, the first line must add nothing either (`RustEventSource.MeetsStandardExactly`).
- The sentinel ends a TypeScript or Rust stream wherever it stands, and a Go stream only as the first line of an
  event. On `data: x`, `data: [DONE]` and a blank line TypeScript yields nothing, Rust `x`, and Go one event of
  both lines, as the standard has it (`RustEventSource.SentinelInsideEvent`).
- The Go chat iterator stops at the first payload that does not decode, where the Rust stream reports it and goes
  on (`StreamAgreement.GoIsRustUpToError`). The Rust Responses stream delivers every `response.*` event and the Go
  one only those in its table (`TurnAgreement.SameTurn`), which has all the server sends
  (`TurnAgreement.ServerTurn`). Of an `error` event without a message of its own only Rust falls back on the
  response snapshot (`TurnAgreement.SameErrorMessage`).
- The Go scanner gives up on a line of 1 MiB; the other clients have no limit (`StreamAgreement.GoCleanIffFits`).
  Only an unterminated last line of exactly that length is accepted, and only if the end of the body comes in the
  same read as its last bytes (`GoStream.TogetherMatters`); the comparisons with the other clients and with the
  standard take the end to come in a read of its own.
- `String.prototype.trim` removes U+FEFF and not U+0085, Rust's `trim` the other way round; the NDJSON readers
  agree exactly on bodies where that makes no difference (`NdjsonAgreement.ReadersAgreeOnlyThen`).
- A signed batch id can be minted for any provider and owner, but decodes only if the provider is not empty and
  neither holds the separator (`BatchId.SignedRoundTrip`).
- The Rust item codec is strict, the others are lenient. Rust requires a message's `role`, a call's `call_id`,
  `name` and `arguments`, an output's `call_id` and `output`, and the `text` or `image_url` of a part or reasoning
  entry as strings, lists as arrays, and optional fields as strings or null. Go takes missing and null fields as
  empty but fails on one of another type, even where the item does not use it; TypeScript takes a field of
  another type as missing, so that it reads of any object what Rust reads of the repaired one
  (`ItemRepair.TypeScriptReadsRepaired`). `ItemReading.AllReadAlike` says, for any JSON, exactly when all three
  read the same item; a call without its fields is a failing input (`ItemReading.EmptyCallDiffers`). Items and parts of
  types the SDKs do not model are treated in three ways (`ItemAgreement.UnmodelledItems`,
  `ItemAgreement.UnmodelledPart`).

## Model

| member | source | states |
|---|---|---|
| Utf8.RunConcat | clients/typescript/src/stream.ts:18 | Decoding with `stream: true` does not depend on where the input is cut, from any decoder state. |
| Utf8.DecodeCommutesWithSplit | clients/rust/src/stream.rs:296-302 | For every byte string, decoding lossily and splitting the text at line feeds gives the lossy decoding of each byte line. |
| Utf8.DecodeEncode | clients/rust/src/stream.rs:300 | The lossy decoder returns encoded text unchanged and ends in its initial state. |
| Utf8.FromUtf8Exact | crates/llmleaf-core/src/batch_id.rs:244-248 | The strict decoder accepts exactly the encodings of texts, each as its text: overlong forms, surrogates and truncations are refused. |
| Utf8Replacement.ReplacesByte | clients/rust/src/stream.rs:300 | A byte that no character's encoding begins with is replaced by U+FFFD, and decoding goes on behind it. |
| Utf8Replacement.ReplacesUnfinished | clients/rust/src/stream.rs:300 | Bytes that some character's encoding begins with, before a byte with which none goes on, are replaced together by one U+FFFD, and decoding goes on with that byte. |
| Utf8Replacement.ReplacesAtEnd | clients/typescript/src/stream.ts:27 | Such bytes at the end of the input are one U+FFFD. |
| Utf8Replacement.DecodesCharacter | clients/rust/src/stream.rs:300 | A whole character in front is decoded, whatever follows it. |
| RustStream.LineTaken | clients/rust/src/stream.rs:296-302 | Cutting the first line off the buffer cuts the first line off everything still to come. |
| RustStream.Arrived | clients/rust/src/stream.rs:61-86 | With no whole line buffered, a chunk joins the buffer without changing what is to come, a failure is the only item left, and the end leaves the unterminated rest. |
| RustStream.LineStream.TakeLine | clients/rust/src/stream.rs:296-302 | Takes the first line exactly when the buffer has one, and leaves what the lines after it give. |
| RustStream.LineStream.TakeRemaining | clients/rust/src/stream.rs:305-311 | Empties the buffer and returns its decoding, nothing for an empty one. |
| RustStream.LineStream.PollTransport | clients/rust/src/stream.rs:61-86 | Polling loses nothing: what was to come is now in the chunk, the wait, the failure or the end that was polled. |
| RustStream.LineStream.Pull | clients/rust/src/stream.rs:129-135 | Waiting, extending the buffer and failing keep the poll's contract; a failure is an error item and ends the stream. |
| RustStream.LineStream.ReadLine | clients/rust/src/stream.rs:45-59 | One chat line: skipped, an item, or the sentinel that ends the stream. |
| RustStream.LineStream.PollChat | clients/rust/src/stream.rs:29-90 | One poll, which terminates: an item is the next one of the whole body and leaves the stream open only if it was read as one to go on from; a pending poll loses nothing and has no whole line buffered; an end means nothing was left and stays. |
| RustStream.LineStream.FlushChat | clients/rust/src/stream.rs:70-86 | A trailing line with no line feed still counts at a clean end. |
| RustStream.LineStream.PollResponses | clients/rust/src/stream.rs:96-161 | The same contract for the Responses stream; the end flag is set with every terminal event. |
| RustStream.LineStream.ReadFrame | clients/rust/src/stream.rs:112-126 | One Responses frame: skipped, an item, or a last item; a terminal event and the `error` event end the stream. |
| RustStream.LineStream.Surface | clients/rust/src/stream.rs:112-126 | A yielded event ends the stream exactly when it is terminal or the `error` event. |
| RustStream.LineStream.FlushResponses | clients/rust/src/stream.rs:136-157 | A trailing frame with no line feed still counts at a clean end. |
| RustStream.LineStream.PollNdjson | clients/rust/src/stream.rs:173-222 | The same contract for the NDJSON stream. |
| RustStream.LineStream.FlushNdjson | clients/rust/src/stream.rs:206-218 | A trailing object with no line feed still counts unless it is blank. |
| RustStream.CollectChat | clients/rust/src/stream.rs:29-90 | Draining the chat stream gives one function of the concatenated bytes and the way the body ends, for every cutting into chunks, empty ones and spurious wake-ups included. |
| RustStream.CollectResponses | clients/rust/src/stream.rs:96-161 | The same for the Responses stream. |
| RustStream.CollectNdjson | clients/rust/src/stream.rs:173-222 | The same for the NDJSON stream. |
| RustStream.EmittedIsNotFinal | clients/rust/src/types.rs:1351-1383 | An item after which the stream goes on is no terminal event, `error` event or transport failure. |
| RustStream.ResponsesRunSafe | clients/rust/src/stream.rs:96-161 | In every run at most one terminal event, `error` event or transport failure occurs, and only as the last item. |
| RustStream.FinalDoesNotGoOn | clients/rust/src/stream.rs:115-125 | The stream does not go on after a terminal event, an `error` event or a transport failure. |
| RustStream.PollOnce | clients/rust/src/stream.rs:104-109 | A final item or the end sets the end flag, and with the flag set a poll finds only the end. |
| RustStream.PollTimes | clients/rust/src/stream.rs:104-160 | However often one stream is polled and whatever the transport does, every poll after a final item or the end is the end. |
| TypeScriptStream.TextDecoder.Decode | clients/typescript/src/stream.ts:18-29 | One call decodes a chunk from the state the last one left and drops a byte order mark at the very front only. |
| TypeScriptStream.IterLines | clients/typescript/src/stream.ts:8-33 | For every chunking, the lines are those of the whole decoded text, one trailing carriage return dropped from each; a failing transport yields the terminated lines and throws. |
| TypeScriptStream.LastLines | clients/typescript/src/stream.ts:27-29 | At the end the decoder is flushed and a rest that is more than a carriage return is a line. |
| TypeScriptStream.DrainLines | clients/typescript/src/stream.ts:20-25 | The inner loop yields every line the buffer now holds and keeps the unterminated rest. |
| TypeScriptStream.ParseLine | clients/typescript/src/stream.ts:47-62 | One line of the event loop keeps the payloads yielded, collected and still to come adding up to those of the whole body; the sentinel ends it. |
| TypeScriptStream.ParseSseData | clients/typescript/src/stream.ts:43-69 | For every chunking, the payloads are one function of the body's lines, trailing event flushed. |
| TypeScriptStream.ParseNdjson | clients/typescript/src/stream.ts:74-82 | For every chunking, one parsed value per non-blank line, up to the first line that does not parse, which throws. |
| EventSourceRefinement.LinesAgree | clients/typescript/src/stream.ts:20-25 | Without lone carriage returns the lines yielded are the lines of section 9.2.6 of the HTML standard. |
| EventSourceRefinement.LinesAgreeIff | clients/typescript/src/stream.ts:20-25 | For every text, the terminated lines, one carriage return dropped from each, are the standard's if and only if every carriage return is part of a CRLF. |
| EventSourceRefinement.PayloadsAreDispatches | clients/typescript/src/stream.ts:43-69 | Line by line, the payloads are the standard's dispatched data, multi-line data included, then, at a clean end, the event left unclosed. |
| EventSourceRefinement.MeetsStandard | clients/typescript/src/stream.ts:43-69 | On streams with LF or CRLF line ends, no colon-less `data` line and no sentinel, the payloads equal the data the standard dispatches if and only if every event is closed by a blank line. |
| EventSourceRefinement.FailingMeetsStandard | clients/typescript/src/stream.ts:43-69 | On such a stream whose transport fails, the payloads are the data dispatched before, and then the failure is thrown: the event left open is not yielded. |
| EventSourceRefinement.ColonlessDataDiffers | clients/typescript/src/stream.ts:58 | A concrete such line: an empty value to the standard and nothing to the parser. |
| EventSourceRefinement.CollectIs | clients/typescript/src/stream.ts:57-63 | What any non-blank line does to the standard's data buffer: a colon-less `data` adds an empty value, a `data:` line its value, any other line nothing. |
| EventSourceRefinement.WeightsDiffer | clients/typescript/src/stream.ts:43-69 | From any state, what the standard dispatches is heavier than the payloads by one line end for every colon-less `data` line. |
| EventSourceRefinement.ColonlessExactly | clients/typescript/src/stream.ts:43-69 | With every event closed and no sentinel, the payloads equal the standard's dispatches if and only if no `data` line lacks its colon. |
| EventSourceRefinement.MeetsStandardExactly | clients/typescript/src/stream.ts:43-69 | The same for every body with LF or CRLF line ends. |
| GoEventSource.FieldOfEncoded | clients/go/stream.go:74-79 | Cutting a line's bytes at the first colon and dropping one space is the standard's field and value, encoded. |
| GoEventSource.EffectOfEncoded | clients/go/stream.go:70-89 | A line does to the Go loop's event exactly what it does to the standard's data buffer, comments and other fields included. |
| GoEventSource.GoLines | clients/go/stream.go:24-29 | On texts with LF or CRLF line ends and lines below the limit the scanner gives the encoded lines, and the transport's error if it fails. |
| GoEventSource.ScanText | clients/go/stream.go:24-29 | The scanner gives the ended lines of a text first, and then the lines of its rest and of any bytes behind it. |
| GoEventSource.ReceiveIsFeed | clients/go/stream.go:45-111 | From any state of the data buffer and whatever follows, the loop's run over some lines is the run over the events the standard dispatches for them, and then over the rest from what the standard leaves in the buffer. |
| GoEventSource.MeetsStandard | clients/go/stream.go:34-112 | For every decoder, either ending and every such text, the Go run is the run over the standard's events, trailing newlines trimmed, multi-line data included, then over the event left unclosed; behind a byte order mark it is that of the stream without its first line. |
| GoEventSource.TrimmedIff | clients/go/stream.go:53 | Trimming changes exactly the events that end in a line feed. |
| GoEventSource.MeetsStandardExactly | clients/go/stream.go:34-112 | Without a byte order mark, with every payload decoded and no sentinel, the Go run is exactly the standard's events and then `io.EOF` if and only if none of them ends in a line feed and nothing but line feeds is left of an unclosed event. |
| GoEventSource.DispatchesWeigh | clients/go/stream.go:45-91 | Of two buffers the standard may start from, with every event closed, the longer one makes its dispatches heavier by exactly the difference. |
| GoEventSource.MarkedMeetsStandardExactly | clients/go/stream.go:34-112 | Behind a byte order mark, which the standard drops, and with every event closed, the same holds if and only if no event ends in a line feed and the first line adds nothing to the data. |
| GoEventSource.MarkHidesEvent | clients/go/stream.go:74-89 | A byte order mark in front of one event: the standard dispatches its value, Go returns nothing. |
| GoEventSource.EmptyLastLineDiffers | clients/go/stream.go:53 | An event of a `data` line and an empty one: the standard's data ends in a line feed, Go's does not. |
| RustEventSource.ReadsText | clients/rust/src/stream.rs:29-90 | For every decoder and every text with LF or CRLF line ends and no sentinel, the items are the trimmed texts of the `data:` lines that are not blank, decoded. |
| RustEventSource.AgreesIffOneEach | clients/rust/src/stream.rs:231-245 | Line by line, these texts are the data the standard dispatches if and only if every closed event is one value that is not empty or blank at an end, and an event left open has only blank ones. |
| RustEventSource.TextsAreLighter | clients/rust/src/stream.rs:231-245 | With every event closed, the texts weigh no more than what the standard dispatches from any buffer, the buffer counted. |
| RustEventSource.MeetsStandardExactly | clients/rust/src/stream.rs:29-90 | With every text accepted, the items are exactly the standard's events if and only if the events are such, and, behind a byte order mark and with every event closed, the first line adds nothing. |
| RustEventSource.SentinelInsideEvent | clients/go/stream.go:80-84 | The sentinel as second line of an event: the standard and Go have one event of both lines, Rust the first line, TypeScript neither. |
| RustReading.ReadsChat | clients/rust/src/stream.rs:29-90 | For every byte string, decoder and ending: the items are the texts of the `data:` lines that are not blank, decoded, up to the sentinel, the unterminated last line included at a clean end; without a sentinel a transport failure is the last item. |
| RustReading.ReadsTurn | clients/rust/src/stream.rs:96-161 | For every byte string, decoder and ending: the items are the `response.*` events and the texts that do not decode, as errors, up to and with the first terminal or `error` event, the unterminated last line included at a clean end; without one a transport failure is the last item. |
| RustReading.LastLineFeed | clients/rust/src/stream.rs:136-157 | Whatever lines mean to a decoder, an unterminated last line counts at a clean end as if a line feed ended it. |
| GoReading.ReadsChat | clients/go/stream.go:34-112 | For every text with LF or CRLF line ends, lines below the limit and no sentinel, and either ending: the run is the values of the events the standard dispatches, trimmed, and of what is left open at a clean end, up to the first that does not decode; a transport failure is its error. |
| GoReading.ReadsTurn | clients/go/responses.go:112-221 | The same for Responses: the events in the table up to and with the first terminal one, others passed over; an `error` event and whatever does not decode or convert is the run's error. |
| WellFormedStreams.StandardValues | clients/typescript/src/stream.ts:36-42 | On a well-formed stream the standard dispatches exactly the values of the `data:` lines, in order. |
| WellFormedStreams.RustAgrees | clients/rust/src/stream.rs:29-90 | Rust, interpreting a line at a time, decodes every well-formed stream to what the standard dispatches. |
| WellFormedStreams.TypeScriptAgrees | clients/typescript/src/stream.ts:43-69 | TypeScript yields the same payloads. |
| WellFormedStreams.GoAgrees | clients/go/stream.go:34-112 | Go returns the same values up to the first that does not decode, and then `io.EOF` or that failure, lines below the limit. |
| WellFormedStreams.RustPrefix | clients/rust/src/stream.rs:29-90 | A well-formed stream in front of any bytes: its values, and then the items of the bytes. |
| WellFormedStreams.TypeScriptReads | clients/typescript/src/stream.ts:43-69 | Well-formed lines in front of any lines: their values, and then the payloads of the rest. |
| WellFormedStreams.GoPrefix | clients/go/stream.go:34-112 | The same for Go, stopping at the first value that does not decode. |
| WellFormedStreams.RustStopsAtSentinel | clients/rust/src/stream.rs:46-50 | A chat stream as it is sent, a well-formed stream and the sentinel line, gives the values and ends there, whatever follows and however the body ends. |
| WellFormedStreams.TypeScriptStopsAtSentinel | clients/typescript/src/stream.ts:61 | The same for TypeScript. |
| WellFormedStreams.GoStopsAtSentinel | clients/go/stream.go:80-84 | The same for Go, up to the first value that does not decode. |
| GoStream.TogetherMatters | clients/go/stream.go:24-29 | Whether the end of the body comes with its last bytes or in a read of its own changes what is scanned if and only if the last line is unterminated and of exactly 1 MiB, and no line before it is too long. |
| GoStream.Tokenized | clients/go/stream.go:24-29 | A line feed in the scanner's buffer ends the first line of everything still to come. |
| GoStream.Overflows | clients/go/stream.go:27 | A full buffer without a line feed is the start of a line that is too long, unless the end of the body came with it. |
| GoStream.Scanner.Scan | clients/go/stream.go:45-46 | Each call returns the next line of the concatenated bytes, or reports the error that ends them: too long a line, or the transport's; the end of the body may come with its last bytes or after them. |
| GoStream.ChatStream.Recv | clients/go/stream.go:34-112 | A value is the next one of the whole body; an error ends the stream for good and is what every later call returns. |
| GoStream.ChatStream.Consume | clients/go/stream.go:46-91 | One line: a blank one closes the event collected, a `data` field adds to it, a lone sentinel ends the stream. |
| GoStream.ChatStream.Exhausted | clients/go/stream.go:94-111 | At the end the scanner's error comes first; otherwise an unclosed event is flushed unless empty or the sentinel. |
| GoStream.ChatStream.Finish | clients/go/stream.go:114-120 | Sets the end flag and keeps the first error. |
| GoStream.ChatStream.Close | clients/go/stream.go:124-127 | Ends the stream without touching an error already reported. |
| GoStream.ResponsesStream.Recv | clients/go/responses.go:112-193 | The same contract for Responses: skipped events are passed over, a terminal event is followed by `io.EOF`. |
| GoStream.ResponsesStream.Consume | clients/go/responses.go:123-168 | One line of the Responses loop; a closed terminal event sets `io.EOF` behind it. |
| GoStream.ResponsesStream.Exhausted | clients/go/responses.go:171-192 | The end of a Responses body. |
| GoStream.ResponsesStream.Finish | clients/go/responses.go:223-229 | Sets the end flag and keeps the first error. |
| GoStream.ResponsesStream.Close | clients/go/responses.go:233-236 | Ends the stream without touching an error already reported. |
| GoStream.CollectChat | clients/go/stream.go:34-127 | Calling `Recv` up to its error gives one function of the concatenated bytes, for every chunking and either way the end arrives; a call after `Close` repeats the error. |
| GoStream.CollectResponses | clients/go/responses.go:112-236 | The same for the Responses stream. |
| GoStream.TerminalEndsRun | clients/go/responses.go:133-147 | For any decoder that marks terminal values, a terminal value is the last one and only `io.EOF` follows. |
| GoStream.ResponsesTerminalIsLast | clients/go/responses.go:82-87 | In every Responses run an event of a terminal type is the last value and is followed by `io.EOF` alone. |
| StreamAgreement.RenderFrames | crates/llmleaf-bench/src/cases.rs:1026-1032 | The loop renders one `data:` frame per payload, in order. |
| StreamAgreement.RenderChat | crates/llmleaf-bench/src/cases.rs:985-992 | The chat body is those frames and the sentinel frame. |
| StreamAgreement.RustReadsPayload | clients/rust/src/stream.rs:231-245 | A one-line payload without surrounding white space is read back from its line. |
| StreamAgreement.RustRoundTrip | clients/rust/src/stream.rs:29-90 | The Rust chat decoder turns a rendered body back into exactly the payloads, decoded. |
| StreamAgreement.TypeScriptRoundTrip | clients/typescript/src/stream.ts:43-69 | The TypeScript parser turns a rendered body back into exactly the payloads. |
| StreamAgreement.ScanFrame | clients/go/stream.go:45-46 | The scanner sees a rendered frame below the line limit as its line and a blank line. |
| StreamAgreement.ReceiveFrame | clients/go/stream.go:45-91 | Such a frame is one event carrying exactly the payload's bytes. |
| StreamAgreement.GoRoundTrip | clients/go/stream.go:34-112 | For every list of printable payloads the Go iterator returns their values up to the first that does not decode or reaches the line limit, and then its failure; or all of them, and then `io.EOF`. |
| StreamAgreement.GoStopsAtLongLine | clients/go/stream.go:27 | A payload at the scanner's limit ends the run with its error, whatever follows. |
| StreamAgreement.GoIsRustUpToError | clients/go/stream.go:60-65 | On the same body, with payloads below the line limit and matching decoders, the Go run is the Rust run up to its first error, which Rust reports and goes on from. |
| StreamAgreement.GoCleanIffFits | clients/go/stream.go:24-29 | With decodable payloads the Go run ends with `io.EOF` if and only if every payload's line is below 1 MiB, and otherwise with the scanner's error. |
| TurnAgreement.RustRoundTrip | clients/rust/src/stream.rs:96-161 | Events that go on, then a terminal one: the Rust Responses decoder returns exactly these. |
| TurnAgreement.TypeScriptRoundTrip | clients/typescript/src/stream.ts:43-69 | The TypeScript parser yields exactly the payloads of a turn, with no sentinel to end it. |
| TurnAgreement.GoRoundTrip | clients/go/responses.go:112-193 | The Go Responses iterator returns exactly the events of a turn, then `io.EOF`. |
| TurnAgreement.RustDelivers | clients/rust/src/types.rs:1381-1383 | Of any rendered events Rust delivers the `error` events and those with the `response.` prefix, up to the first that ends the turn. |
| TurnAgreement.GoDelivers | clients/go/responses.go:57-87 | Of the same events Go delivers the `error` events, as the error the run ends with, and those in its table, up to the first that ends the turn. |
| TurnAgreement.SameTurn | clients/go/responses.go:198-221 | Rust and Go deliver the same turn, the `error` event that may end it included, if and only if every event type up to the one that ends it is in Go's table or lacks the prefix Rust looks for. |
| TurnAgreement.TableIs | clients/go/responses.go:57-80 | The Go table holds the types the server sends and those for refusals, reasoning summaries and annotations, and no others. |
| TurnAgreement.ServerTurn | crates/llmleaf-core/src/compat/responses.rs:1056-1546 | Of a turn made of the event types the server sends, and `error`, Rust and Go both deliver every event up to the one that ends it. |
| TurnAgreement.SameErrorMessage | clients/rust/src/stream.rs:284-290 | Both clients surface the same message of an `error` event if and only if it has one of its own or its response snapshot has none. |
| LineAgreement.DecodeThenSplit | clients/typescript/src/stream.ts:8-33 | TypeScript's lines are Rust's lines decoded one by one, up to one trailing carriage return each and an empty last line, if and only if the body does not start with a byte order mark. |
| LineAgreement.DecodeThenSplitFailing | clients/typescript/src/stream.ts:20-25 | When the transport fails, the terminated lines agree if and only if the body does not start with a byte order mark or has no terminated line. |
| LineAgreement.StartsWithMark | clients/rust/src/stream.rs:300 | The decoded text starts with the byte order mark exactly when the three bytes do, malformed input included. |
| NdjsonAgreement.RustItems | clients/rust/src/stream.rs:173-222 | The Rust reader decodes the trimmed text of every non-blank line, unterminated last one included; when the transport fails, that of every terminated one, and then the failure. |
| NdjsonAgreement.ScriptItems | clients/typescript/src/stream.ts:74-82 | The TypeScript reader parses the trimmed text of every such line up to the first error, the transport's included. |
| NdjsonAgreement.TextsAgree | clients/typescript/src/stream.ts:78 | The two clients pass the same texts to their JSON parsers if and only if no line's outermost character, past white space common to both, is U+0085 or U+FEFF. |
| NdjsonAgreement.ReadersAgree | clients/typescript/src/stream.ts:74-82 | For such bodies, however they end, and every JSON parser, TypeScript yields what Rust yields, up to the first error, of a line that does not parse or of the transport. |
| NdjsonAgreement.ReadersAgreeOnlyThen | clients/rust/src/stream.rs:189-196 | For every body and either ending: with a parser that accepts everything the readers agree if and only if no line has such ends; a leading byte order mark is one. |
| Bits.XorZero | crates/llmleaf-core/src/batch_id.rs:93 | The exclusive or of two numbers is zero exactly when they are equal. |
| Bits.OrZero | crates/llmleaf-core/src/batch_id.rs:93 | The or of two numbers is zero exactly when both are. |
| Bits.OrShifted | clients/go/embed_decode.go:46-49 | Or-ing in a value shifted past the bits already set adds it. |
| Base64.FromDigitsDigits | crates/llmleaf-core/src/batch_id.rs:130 | The digits of a byte string are read back as that byte string. |
| Base64.DigitsFromDigits | crates/llmleaf-core/src/batch_id.rs:200 | Digits the strict decoder accepts are the digits of what it returns: no stray bits, no single digit left over. |
| Base64.DigitsAreBits | clients/rust/src/wire.rs:71 | Section 4 of RFC 4648: the digits of a byte string are exactly the groups of six of its bits, the most significant first, the last group filled up with zeros. |
| Base64.LenientExact | clients/go/embed_decode.go:37 | A decoder that ignores left-over bits takes any number of digits except one left over, and gives the bytes that the bits fill. |
| Base64.TableReads | crates/llmleaf-core/src/batch_id.rs:130 | Every character stands in the alphabet at the value RFC 4648 gives it, and no other character stands in it. |
| Base64.Bijection | crates/llmleaf-core/src/batch_id.rs:189-202 | Unpadded base64 in any alphabet is a bijection between byte strings and the strings the strict decoder accepts. |
| Base64.PaddedBijection | clients/rust/src/wire.rs:71 | The same for padded base64: a string decodes to bytes exactly when it is their encoding. |
| BatchId.Verify | crates/llmleaf-core/src/batch_id.rs:85-94 | The constant-time fold is zero exactly when the tag is the expected one, other lengths refused. |
| BatchId.Encode | crates/llmleaf-core/src/batch_id.rs:112-134 | The bytes pushed are the fields joined by the separator and, with a signer, the tag over them. |
| BatchId.EncodeWith | crates/llmleaf-core/src/batch_id.rs:189-195 | An unsigned token is the prefix and the encoding of the two joined fields. |
| BatchId.Decode | crates/llmleaf-core/src/batch_id.rs:139-176 | Decoding as the program runs it, tag cut off by length and verified before any field is read. |
| BatchId.DecodeSignedPayload | crates/llmleaf-core/src/batch_id.rs:145-166 | The signed branch: length and separator checks, verification, then the fields. |
| BatchId.SplitOnceExact | crates/llmleaf-core/src/batch_id.rs:225-231 | Splitting at the first separator gives `(x, y)` exactly when the bytes are `x`, separator, `y` with none in `x`. |
| BatchId.RSplitOnceExact | crates/llmleaf-core/src/batch_id.rs:236-242 | Splitting at the last separator gives `(x, y)` exactly when the bytes are `x`, separator, `y` with none in `y`. |
| BatchId.CutTag | crates/llmleaf-core/src/batch_id.rs:148-155 | Cutting the tag off by length is the inverse of appending it, even if it holds the separator. |
| BatchId.PayloadExact | crates/llmleaf-core/src/batch_id.rs:197-202 | A token decodes to a payload exactly when it is that payload's token. |
| BatchId.SplitHeadExact | crates/llmleaf-core/src/batch_id.rs:156-165 | A signed head splits into the three fields exactly when it is their join and they are addressable, separators in the upstream id allowed. |
| BatchId.SignedExact | crates/llmleaf-core/src/batch_id.rs:139-166 | With a signer a token decodes to a triple if and only if it is `encode_batch` of it, the provider non-empty and, like the owner, separator-free. |
| BatchId.SignedRoundTrip | crates/llmleaf-core/src/batch_id.rs:112-134 | What `encode_batch` signs decodes back if and only if its fields are addressable. |
| BatchId.UnsignedExact | crates/llmleaf-core/src/batch_id.rs:167-174 | Without a signer a token decodes to a pair if and only if it is the unsigned token of it and the provider is non-empty and separator-free. |
| BatchId.SignedLayout | crates/llmleaf-core/src/batch_id.rs:119-130 | A signed payload is the unsigned one, the owner and the tag over both, in this order, the tag the last 16 bytes. |
| BatchId.KnownIds | crates/llmleaf-core/src/batch_id.rs:189-195 | The ids of provider `a` and upstream id `b` are `batch_YR9i` and `file_YR9i`. |
| BatchId.FileExact | crates/llmleaf-core/src/batch_id.rs:179-187 | File ids decode exactly as they are encoded, and never as batch ids. |
| Embedding.Bits32 | clients/go/embed_decode.go:46-49 | Or-ing the four shifted bytes assembles the little-endian word. |
| Embedding.DecodeF32 | clients/go/embed_decode.go:36-43 | A string that is no base64 or a length not divisible by four is refused, anything else gives the words. |
| Embedding.ReadWords | clients/go/embed_decode.go:44-52 | The loop fills the vector with the words of the bytes, in order. |
| Embedding.RoundTrip | clients/rust/src/wire.rs:70-82 | Both clients read the canonical base64 of the little-endian bytes of any words as exactly these words. |
| Embedding.LittleEndian | clients/go/embed_decode.go:46-49 | Byte `4k + i` holds the bits of weight `256^i` of word `k`. |
| Embedding.DropEach | clients/go/embed_decode.go:37 | Wherever they stand, carriage returns and line feeds are skipped, and every other character stays. |
| Embedding.GoAccepts | clients/go/embed_decode.go:37 | The Go decoder takes exactly the strings that are, line ends aside, digits padded to a multiple of four characters, and gives the bytes their bits fill. |
| Embedding.RejectsMisaligned | clients/rust/src/wire.rs:72-77 | Both clients refuse the base64 of a byte string whose length is not divisible by four. |
| Embedding.RustIsCanonicalGo | clients/go/embed_decode.go:37 | Whatever the Rust client accepts is canonical, and the more lenient Go client reads it the same. |
| Router.Router.constructor | crates/llmleaf-core/src/route.rs:28-40 | The table maps every model to its last declared chain, and the claims are sorted. |
| Router.Router.Resolve | crates/llmleaf-core/src/route.rs:45-58 | A table hit wins; otherwise the first matching claim in sorted order answers. |
| Router.StripExact | crates/llmleaf-core/src/route.rs:75-78 | A prefix strips to a rest exactly when the model is prefix, slash, rest and the rest is not empty. |
| Router.SortIsSorted | crates/llmleaf-core/src/route.rs:34-38 | The claims end up by descending prefix length, each exactly as often as declared. |
| Router.SortedFirstMatchWins | crates/llmleaf-core/src/route.rs:45-58 | Sorting and taking the first match finds the claim with the longest matching prefix, the earliest declared among equals, or that none matches. |
| Router.ResolvesMostSpecific | crates/llmleaf-core/src/route.rs:28-58 | A model resolves to its last explicit route if there is one; otherwise to the provider with the longest prefix that matches with a non-empty rest, the earliest declared of those as long, and that rest; and to nothing only if no provider's prefix matches. |
| Router.OrderIrrelevant | crates/llmleaf-core/src/route.rs:28-58 | With one chain per model and one provider per prefix, permuting or repeating declarations changes no resolution. |
| Health.HealthTable.Penalize | crates/llmleaf-core/src/route.rs:95-100 | Sets the provider's cooldown and no other; the table goes on telling its history. |
| Health.HealthTable.IsDown | crates/llmleaf-core/src/route.rs:103-109 | True exactly if the last penalty or clearing of the provider in the table's history is a penalty whose cooldown has not elapsed. |
| Health.HealthTable.Clear | crates/llmleaf-core/src/route.rs:113-118 | Removes the provider's entry and no other, on the fast path too; the table goes on telling its history. |
| Health.HealthTable.Snapshot | crates/llmleaf-core/src/route.rs:121-128 | Lists exactly the providers last penalised, each once, with whether its cooldown has not elapsed. |
| Health.DownIff | crates/llmleaf-core/src/route.rs:95-118 | Over any history, a provider is down exactly when the last operation that updated it was a penalty whose cooldown has not elapsed; reads and other providers do not matter. |
| Health.ReplayTells | crates/llmleaf-core/src/route.rs:95-118 | Over any history, a provider has an entry exactly if its last update was a penalty, and is down exactly if that one's cooldown has not elapsed. |
| Health.UpStaysUp | crates/llmleaf-core/src/route.rs:103-109 | With no new operation a provider that is up stays up as time advances. |
| Health.StepIsAtomic | crates/llmleaf-core/src/route.rs:113-118 | A lock section that completes an operation does what the operation does at once; any other leaves the table alone. |
| Health.LinearizationIsLegal | crates/llmleaf-core/src/route.rs:94-128 | In every interleaving, the operations in the order they take effect are a legal sequential history ending in the real table. |
| Health.AnswersTell | crates/llmleaf-core/src/route.rs:94-128 | In every interleaving, `is_down` is answered true exactly if the last penalty or clearing of the provider that took effect before is a penalty whose cooldown has not elapsed; a snapshot lists exactly the providers last penalised, each with that. |
| Health.EffectsBetweenCallAndReturn | crates/llmleaf-core/src/route.rs:94-128 | At every moment and for every thread, exactly the calls made except one pending have taken effect, and the answers returned are theirs except one still to return. |
| Health.Linearizable | crates/llmleaf-core/src/route.rs:94-128 | Every interleaving of `penalize`, `is_down`, the two-section `clear` and `snapshot` is equivalent to one sequential order in which each operation takes effect between its call and its return. |
| EventBus.DistinctSlots | crates/llmleaf-core/src/events.rs:75-78 | Positions less than one turn of the ring apart use different slots. |
| EventBus.RoundUpIsLeast | crates/llmleaf-core/src/events.rs:75-78 | The ring's capacity is the least power of two that is not less than the one asked for. |
| EventBus.EventBus.Emit | crates/llmleaf-core/src/events.rs:82-90 | Appends to the log the ring stands for, overwriting only the oldest slot; without receivers the event is dropped. |
| EventBus.EventBus.Subscribe | crates/llmleaf-core/src/events.rs:92-94 | A new receiver starts behind everything already emitted. |
| EventBus.EventBus.TryRecv | crates/llmleaf-control/src/usage.rs:78-94 | A receiver gets the next event of the log, or how many it missed, or that there is none yet or none any more. |
| UsageReporter.UsageReporter.constructor | crates/llmleaf-control/src/usage.rs:33-50 | Starts with an empty batch at the subscription, with a batch size of at least one. |
| UsageReporter.UsageReporter.SendBatch | crates/llmleaf-control/src/usage.rs:103-141 | An empty batch is not sent; any other is sent once and cleared, accepted or not, whatever is emitted meanwhile. |
| UsageReporter.UsageReporter.Step | crates/llmleaf-control/src/usage.rs:66-96 | One turn of the `select!` for each branch and each thing a receive can report; events emitted while a request is out join the log behind the turn. |
| UsageReporter.UsageReporter.Loop | crates/llmleaf-control/src/usage.rs:52-99 | The object and its ring go through exactly the runs of the specification, whatever is emitted while requests are out. |
| UsageReporter.RunHappens | crates/llmleaf-control/src/usage.rs:103-141 | A turn during which events are emitted reaches the state of that turn followed by those emissions, if it sends a batch. |
| UsageReporter.TurnOrdered | crates/llmleaf-control/src/usage.rs:66-96 | Every turn keeps every received event flagged once as taken or skipped, those taken in order in the POST bodies and then the batch. |
| UsageReporter.RunOrdered | crates/llmleaf-control/src/usage.rs:52-99 | In every run the POST bodies and the batch are an in-order, duplicate-free selection of the events emitted since the subscription. |
| UsageReporter.Conservation | crates/llmleaf-control/src/usage.rs:52-141 | In every reachable state the events since the subscription are exactly those in accepted POSTs, in failed POSTs, skipped, in the batch, and unread; those skipped are the ones the ring had overwritten (`FlagsTell`). |
| UsageReporter.BatchShape | crates/llmleaf-control/src/usage.rs:66-96 | At every loop head the batch is short of full, every POST carries between one and `batch_max` events, and a stopped reporter holds nothing. |
| UsageReporter.EventIsReported | crates/llmleaf-control/src/usage.rs:79-84 | A receive that finds its event in the ring appends it to what is reported; the batch is sent, with the given outcome, exactly when it is full. |
| UsageReporter.TickAndShutdown | crates/llmleaf-control/src/usage.rs:69-77 | A tick and a shutdown send the batch, if there is one, with the given outcome and hold nothing afterwards; only the shutdown stops the loop. |
| UsageReporter.NothingToReceive | crates/llmleaf-control/src/usage.rs:90-93 | With nothing left to receive, a closed bus makes the reporter send its batch and stop, and an open one leaves it as it is. |
| UsageReporter.FlagsTell | crates/llmleaf-control/src/usage.rs:78-94 | In every run, each position received was read by one turn, and its event was reported if and only if the ring still held it when that turn came. |
| UsageReporter.WithoutLag | crates/llmleaf-control/src/usage.rs:52-99 | If no receive of a run found its position overwritten, the POST bodies and the batch are exactly the events received, in order. |
| UsageReporter.StopsWhenDrained | crates/llmleaf-control/src/usage.rs:90-93 | Without a shutdown the reporter stops only once the senders are gone and it has received all they sent, holding nothing. |
| UsageReporter.DrainsAndStops | crates/llmleaf-control/src/usage.rs:78-94 | Once the senders are gone, one receive more than events are unread stops the reporter, whatever becomes of its POSTs. |
| UsageReporter.AllIsPosted | crates/llmleaf-control/src/usage.rs:52-141 | Without a shutdown or a lag, a reporter that has stopped has POSTed every event since the subscription, once and in order. |
| UsageReporter.LagIsOverwritten | crates/llmleaf-control/src/usage.rs:85-89 | A receive lags exactly when the ring has overwritten the position, and then skips to the oldest event retained, touching nothing else. |
| Multipart.Field | clients/rust/src/client.rs:101 | Appending a text field adds its part to the body. |
| Multipart.TranscriptionForm | clients/rust/src/client.rs:99-104 | The bytes appended are the form of the request's parts, in order, file name sanitised. |
| Multipart.NoSelfOverlap | clients/rust/src/client.rs:100 | Two occurrences of the delimiter never overlap. |
| Multipart.FirstDelimiter | clients/rust/src/client.rs:100 | The first delimiter found is the one written after a text if and only if the text holds none. |
| Multipart.SanitizeIsWord | clients/rust/src/client.rs:103 | Whatever the file name, what is written of it has no quote, carriage return or line feed. |
| Multipart.SanitizeKeepsWords | clients/rust/src/client.rs:103 | A file name without those characters is written unchanged. |
| Multipart.SanitizeEach | clients/rust/src/client.rs:103 | Sanitising works byte by byte: a quote becomes `%22`, carriage returns and line feeds go, every other byte stays. |
| Multipart.ReadHeaderIs | clients/rust/src/client.rs:101-103 | Name and file name are read back from the header lines. |
| Multipart.ReadPartIs | clients/rust/src/client.rs:101-103 | A part is read back from its whole text and from no shorter piece of it. |
| Multipart.BodyRoundTrip | clients/rust/src/client.rs:99-104 | For any list of parts, reading the written body gives back exactly these parts if and only if every content is free of the delimiter and does not start with the boundary line. |
| Multipart.FormatIsValid | clients/rust/src/client.rs:100-103 | The client's boundary, header texts and field names have the properties the reading needs. |
| Multipart.UploadRoundTrip | clients/rust/src/client.rs:99-104 | The same for the uploads of this client: every request, every file name, every audio body. |
| Multipart.Upload | clients/rust/src/client.rs:99-104 | For every request that cannot be taken for a delimiter, the bytes written read back as the request: under each of the six names its value, once, or nothing if it is not given, in the order of the source; only the audio has a file name, the sanitised one. |
| Multipart.DelimiterFreeIsNotEnough | clients/rust/src/client.rs:101 | A model name that is the boundary line holds no delimiter and still does not read back. |
| GoItems.ReasoningItemToWire | clients/go/wire.go:1241-1251 | The two loops tag every summary entry and every content entry by its list. |
| GoItems.EncodesForm | clients/go/wire.go:1275-1304 | What Go writes for an item is a wire form of it without annotations: untyped messages, typed items, list-derived tokens. |
| GoItems.DecodesForm | clients/go/wire.go:1306-1348 | Go reads every wire form of an item as the item without annotations. |
| GoItems.DecodesToWellFormed | clients/go/wire.go:1306-1348 | Whatever Go decodes to is well formed and could have been sent by it. |
| RustItems.SerializeReasoningTexts | clients/rust/src/types.rs:984-997 | The loop serialises every text with the token of its list. |
| RustItems.EncodesForm | clients/rust/src/types.rs:926-940 | What Rust writes for an item is a wire form of it, annotations and unmodelled items included. |
| RustItems.DecodesForm | clients/rust/src/types.rs:942-974 | Rust reads every wire form of an item as exactly that item. |
| RustItems.KeepsUnmodelled | clients/rust/src/types.rs:969-970 | Rust keeps aside exactly the objects of unmodelled types and writes them back verbatim. |
| TypeScriptItems.DecodeResponseMessageContent | clients/typescript/src/wire.ts:1043-1054 | The loop collects the parts it knows, in order, and skips the others. |
| TypeScriptItems.EncodesForm | clients/typescript/src/wire.ts:942-955 | What TypeScript writes for an item is a wire form of it without annotations. |
| TypeScriptItems.DecodesForm | clients/typescript/src/wire.ts:1115-1133 | TypeScript reads every wire form of an item as the item without annotations. |
| TypeScriptItems.DecodesToWellFormed | clients/typescript/src/wire.ts:1115-1133 | Whatever TypeScript decodes to is well formed and could have been sent by it. |
| ItemAgreement.Agreement | clients/rust/src/types.rs:926-974 | For any two clients and every item both can hold, one reads what the other wrote as the same item, annotations travelling from Rust to Rust only. |
| ItemAgreement.ListAgreement | clients/go/wire.go:1641 | The same for lists: nothing lost, added or reordered. |
| ItemAgreement.Replay | clients/typescript/src/wire.ts:1115-1133 | An item read from any JSON, written again and read again is the same item, so replaying a turn's output, encrypted reasoning included, changes nothing. |
| ItemAgreement.UnmodelledItems | clients/go/wire.go:1340-1346 | For an object of an unmodelled type Rust keeps it, TypeScript skips it, and Go reads it as a message or fails. |
| ItemAgreement.UnmodelledPart | clients/go/wire.go:1154-1162 | For every content part of an unknown type Rust fails, TypeScript skips it, and Go reads an input text or fails. |
| ItemAgreement.UnmodelledPartInMessage | clients/typescript/src/wire.ts:1043-1054 | Anywhere in a part list, one unknown part fails the list in Rust and is the only thing missing in TypeScript. |
| ItemReading.ReadsExactly | clients/rust/src/types.rs:942-974 | For any JSON, Rust reads an item of a modelled type exactly when every field it requires is there with its type and no optional field has another type. |
| ItemReading.StrictThenLenient | clients/typescript/src/wire.ts:1115-1133 | Whatever JSON Rust reads as such an item TypeScript reads as the same one, annotations aside; Go does so exactly when no field it looks at and Rust does not has another type, and otherwise fails. |
| ItemReading.AllReadAlike | clients/go/wire.go:1306-1348 | All three clients read an object as the same item if and only if both conditions hold. |
| ItemReading.GoReadsExactly | clients/go/wire.go:1306-1348 | For any JSON, Go fails exactly where a field it looks at has another type; missing and null fields never fail. |
| ItemReading.LenientAlike | clients/typescript/src/wire.ts:1115-1133 | Where Go reads an object of a modelled type whose parts and entries are known, it reads what TypeScript reads. |
| ItemRepair.TypeScriptReadsRepaired | clients/typescript/src/wire.ts:88-108 | Any object of a modelled type, or of none, reads in TypeScript as the item strict Rust reads once every field has its type: required texts empty if they had none, optional ones, unknown parts and other misplaced values gone. |
| ItemReading.SameParts | clients/go/wire.go:1137-1163 | The same for a list of content parts: nothing lost or reordered by any client. |
| ItemReading.SameEntries | clients/typescript/src/wire.ts:1093-1100 | The same for a list of reasoning texts. |
| ItemReading.EmptyCallDiffers | clients/typescript/src/wire.ts:1068-1079 | A call without its fields: an error in Rust, a call with empty fields in Go and TypeScript. |

## Left out

- HTTP transports, client endpoint methods, timeouts, TLS, headers and error envelopes: input and output plumbing.
- JSON text parsing: an arbitrary function in the stream models; the item codecs work on parsed JSON objects, without duplicate or reordered keys.
- HMAC-SHA256: an arbitrary function with a 16-byte result, so nothing is said about forging a tag.
- Health.HealthTable.Penalize: requires that `now + cooldown` does not overflow 64 bits, which the source does not check.
- Health.HealthTable.Clear: is the sequential method; its two lock sections are separate steps in the interleaved model.
- Router.SortIsSorted: the library's stable sort is modelled as an insertion sort; stability is in `Router.SortedFirstMatchWins`.
- EventBus.EventBus.Emit: the library's slot locks, reader counts and wake-ups are not modelled, only the ring's contents and positions.
- EventBus.EventBus.TryRecv: waiting for an event is the `Empty` answer, on which the reporter's branch does not fire.
- UsageReporter.UsageReporter.SendBatch: the request itself is reduced to whether it succeeded; serialisation, authentication and the time limit are not part of this model.
- GoStream.Scanner.Scan: buffer growth below the limit and the library's cap on consecutive empty reads are not modelled.
- GoStream.ChatStream.Close: the response body that it closes is not part of this model.
- TypeScriptStream.IterLines: releasing the reader's lock is not modelled, and a consumer that stops early is not followed further.
- RustItems.DecodesForm: derived decoders also read records from positional arrays and variants from numeric tags; the model treats both as malformed.
- GoItems.DecodesForm: field names match exactly, while the library also accepts other letter cases.
- Multipart.ReadHeaderIs: the reader knows the header texts this client writes, not header syntax in general; only delimiters, transport padding and blank lines are read as RFC 2046 has them.
- The router's listing accessors, the subscriber count and wall-clock stamps: they only read or copy a field.
- Control refreshers, admin views and the engine's fallback walk: the state they act on is not part of this model.
- Generated getters, URL and form encoding, the redirect policy, enum token tables and the decisions codecs: each translates one value without state, loops or an inverse to relate it to.
- The benchmark harness apart from its two stream renderers, and the C# and Kotlin clients: the properties here concern the server core and the Rust, TypeScript and Go clients.
