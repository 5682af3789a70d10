# treegpt-2api: NDJSON to SSE translation

This project models the translation core of the treegpt-2api Cloudflare
Worker. The Worker forwards OpenAI-style chat-completion requests to one
upstream chat service. That service answers with newline-delimited JSON
(NDJSON). The Worker turns the answer into OpenAI's Server-Sent-Events chunk
stream, or into one aggregated completion when streaming is off.

Everything is modelled as pure functions over strings, plus two methods whose only effect is a loop computing their result. The upstream body is a
sequence of already-decoded text chunks (`seq<string>`). The JSON parser is a
parameter `parse: string -> Option<Record>`. A `Record` has a `reasoning` and a
`content` string, and an absent field is `""`.

- `Lines`: JavaScript's `split('\n')` (`Split`), its inverse `Join`, and the
  concatenation of newline-terminated lines.
- `Decoder`: the line reassembler. Each chunk is appended to a carry-over
  buffer. The buffer is split on newlines. The last segment is kept as the new
  buffer.
- `Transcoder`: maps each complete, non-blank, parsable line to zero, one or
  two `Delta` frames, reasoning first. The end of the body appends `Stop` and
  `Done`, and a read failure appends `ErrorStop`.
- `Chunks`: `createChatCompletionChunk`, plus the rendering of frames to
  chat-completion chunks and the `[DONE]` sentinel.
- `Aggregator`: the non-streaming variant. It splits the whole body, drops
  blank lines, and concatenates reasoning then content.
- `Auth`: resolution of the API key and `verifyAuth`.

The central results:
- The streamed frames are the frames of the complete lines of the whole text,
  in line order, followed by the terminal frames. This holds however the text
  is cut into chunks.
- The unterminated last line is never parsed.
- The aggregated text equals the streamed text plus the text of that last
  line. The two coincide when the body ends with a newline.

`trim` only decides whether a line is blank. `JSON.parse` receives the
untrimmed line (worker.js:172, 177, 229, 234).

## Model

| member | source | states |
|---|---|---|
| Lines.Split | worker.js:168 | `split('\n')` returns at least one segment. No segment contains a newline. Joining the segments with '\n' gives back the input. |
| Lines.SplitCount | worker.js:168 | There is exactly one more segment than the text has newlines. |
| Lines.SplitJoin | worker.js:168 | Splitting inverts joining for newline-free segments, so the segmentation of a text is unique. |
| Decoder.Feed | worker.js:167-169 | One loop iteration. The kept buffer holds no newline, and the returned lines hold none. The lines, each followed by '\n', then the buffer, spell exactly the old buffer plus the chunk: nothing is lost or duplicated. |
| Decoder.ReassembleFrom | worker.js:163-171 | Over any number of chunks, the emitted lines, each followed by '\n', then the final buffer, spell the starting buffer plus all chunks. The buffer stays newline-free. |
| Decoder.Reassemble | worker.js:161-171 | From the initial empty buffer, the consumed input equals the terminated lines followed by the buffer. Neither the lines nor the buffer hold a newline. |
| Decoder.CompleteLines | worker.js:168 | The segments before the last, that is the lines a newline has terminated. None holds a newline; with `Remainder` they spell the text (`Remainder`'s contract). |
| Decoder.Remainder | worker.js:169 | `lines.pop()`: the newline-free tail after the last newline. The complete lines, each followed by '\n', then the tail, spell the text. |
| Decoder.Decomposition | worker.js:168-169 | A text has exactly one split into newline-terminated, newline-free lines plus a newline-free tail. It is the complete lines and the remainder of `split`. |
| Decoder.ReassembleIsSplit | worker.js:161-171 | Whatever the chunking, the reassembler's lines are all segments of the whole text except the last. The final buffer is that last segment. |
| Decoder.ChunkBoundaryIndependence | worker.js:163-171 | Two chunkings of the same text give the same lines and the same final buffer. |
| Decoder.UnterminatedTail | worker.js:168-169 | Appending text without a newline adds no complete line. It only lengthens the remainder. |
| Transcoder.RecordFrames | worker.js:180-195 | One record yields one frame per non-empty field, each a non-empty delta. The reasoning frame comes first and the content frame last. Their texts spell reasoning followed by content. A record with neither yields nothing. |
| Transcoder.IsTrimmed | worker.js:172 | The characters `trim` removes: ECMAScript WhiteSpace (TAB, VT, FF, SP, NBSP, ZWNBSP and the Space_Separator characters) and LineTerminator (LF, CR, LS, PS). |
| Transcoder.TrimStart | worker.js:172 | The leading part of `trim`: the result is a suffix of the line, every character removed is one `trim` removes, and the result does not start with one. |
| Transcoder.TrimEnd | worker.js:172 | The trailing part of `trim`: the result is a prefix, every character removed is one `trim` removes, and the result does not end with one. |
| Transcoder.Trim | worker.js:172 | `line.trim()`: `TrimStart`, then `TrimEnd`. What is left neither starts nor ends with a character `trim` removes. |
| Transcoder.IsBlank | worker.js:229 | A line is blank when every character is one `trim` removes; the empty line is blank. |
| Transcoder.BlankIffTrimEmpty | worker.js:172 | `!line.trim()` holds exactly when the line is blank: trimming leaves nothing exactly when every character is WhiteSpace or LineTerminator. |
| Transcoder.LineFrames | worker.js:172-199 | A blank or whitespace-only line, or one that fails to parse, yields no frame. Otherwise the frames are exactly the record's frames: a reasoning delta, then a content delta, each only when non-empty. |
| Transcoder.LinesFrames | worker.js:171-200 | The frames of any sequence of lines are all non-empty deltas. |
| Transcoder.StreamFrom | worker.js:163-201 | The read loop writes only non-empty content deltas. |
| Transcoder.Terminal | worker.js:203-210 | After the loop: on a normal end exactly two frames, `Stop` then `Done`; on a read failure exactly one, the `ErrorStop` carrying the message, and no `Done`. No delta is written. |
| Transcoder.Transcode | worker.js:163-210 | On a normal end, the stream ends with exactly one `Stop` followed by `Done`, and every earlier frame is a non-empty delta. On a read failure, it ends with one `ErrorStop` and every earlier frame is a delta. No delta follows a terminal frame. |
| Transcoder.LinesFramesAppend | worker.js:171-200 | Frames keep line order: the frames of consecutive line groups are the concatenation of their frames. |
| Transcoder.SkippedLine | worker.js:172-199 | A blank or unparsable line contributes nothing. The frames of the lines before and after it are unchanged. |
| Transcoder.StreamFromReassembles | worker.js:163-201 | The loop's output is the frames of the lines the reassembler yields, in order. |
| Transcoder.TranscodeIsLineMap | worker.js:161-206 | The stream is the frames of the complete lines of the concatenated input, followed by the terminal frames. |
| Transcoder.TranscodeChunkIndependent | worker.js:163-206 | Two chunkings of the same upstream text produce the same frames. |
| Transcoder.TranscodeIgnoresTail | worker.js:163-206 | A final chunk without a newline changes no frame: the unterminated buffer is discarded at the end. |
| Transcoder.TranscodeParsesCompleteLinesOnly | worker.js:168-177 | Only complete lines reach the parser. Two parsers that agree on them give the same stream. |
| Chunks.CreateChatCompletionChunk | worker.js:265-273 | The delta is empty exactly when the content is empty, and otherwise carries the content. The id and model pass through unchanged. The finish reason passes through and defaults to null. |
| Chunks.ErrorText | worker.js:209 | The content of the error chunk: "\n\n[Error: ", the failure message, then "]". |
| Chunks.Render | worker.js:187-210 | `Done` becomes the `[DONE]` sentinel, every other frame a chunk with the request's id and model. The chunk carries the finish reason "stop" exactly for `Stop` and `ErrorStop`, and a delta's chunk carries null. A delta's text, or "\n\n[Error: message]", is the content; `Stop` has an empty delta. |
| Chunks.RenderAll | worker.js:187-210 | One event per frame, in frame order, each the rendering of its frame. |
| Chunks.RenderedStreamOnEnd | worker.js:187-206 | Every event but the last two is a content chunk with the request's id and model, a null finish reason, and the non-empty text of the frame at the same position. Then comes one empty-delta "stop" chunk, the only one, then `[DONE]`. |
| Chunks.RenderedStreamOnReadFailure | worker.js:187-210 | After a read error, every earlier event is the content chunk of the frame at the same position, and the last event is the only "stop" chunk and carries the error text. No `[DONE]` is written. |
| Aggregator.NonBlankLines | worker.js:229 | The filter keeps only non-blank lines. Every non-blank line keeps its number of occurrences and every blank line has none. |
| Aggregator.NonBlankLinesAppend | worker.js:229 | The filter keeps order: filtering a concatenation gives the concatenation of the filtered parts. |
| Aggregator.FilterKeepsFrames | worker.js:229 | Filtering out blank lines does not change the frames the lines yield. |
| Aggregator.AccumulateLines | worker.js:230-238 | The loop over non-blank lines appends reasoning then content of each parsed record. The result is the text of those lines' delta frames. |
| Aggregator.AccumulatedIsDeltaText | worker.js:230-238 | Accumulating reasoning then content over non-blank lines gives the text their delta frames spell. |
| Aggregator.Aggregate | worker.js:228-238 | The aggregated content equals the delta text of every segment of the body, in order, including an unterminated last line. |
| Aggregator.StreamedVersusAggregated | worker.js:228-238 | For any chunking of a body, the aggregated text equals the streamed delta text followed by the text of the unterminated last line. |
| Aggregator.StreamedEqualsAggregatedWhenTerminated | worker.js:228-238 | When the body ends with '\n', the aggregated text equals the concatenated streamed deltas. |
| Aggregator.UnterminatedLineDiverges | worker.js:163-236 | A one-line body without a final newline is aggregated but not streamed: "x" against "". |
| Auth.ResolveApiKey | worker.js:65 | An absent or empty environment key falls back to "1". The resolved key is never empty and otherwise is the environment key. |
| Auth.VerifyAuth | worker.js:103-108 | Key "1" accepts every request. Any other key accepts exactly when the Authorization header equals "Bearer " followed by the key. |
| Auth.UnconfiguredAcceptsAll | worker.js:103-108 | Without a configured key, every request passes, even one without a header. |
| Auth.ConfiguredKeyRejects | worker.js:103-108 | With a configured key, a request without a header, or with the bare key as header, is rejected. |

## Left out

- UTF-8 decoding by `TextDecoder` (worker.js:156, 167). Chunks arrive as decoded text. Multi-byte sequences split across chunks, BOM stripping and the missing final flush are decoder-library behaviour.
- `JSON.parse` and JavaScript truthiness of non-string fields (worker.js:177-181, 234-236). The parser is an arbitrary total function returning `Option<Record>`. `None` stands for a line that throws, including `null`, whose field access throws.
- `fetch`, `TransformStream`, writer backpressure, the async task and `writer.close` (worker.js:140-160, 211-214) are I/O and concurrency.
- A failing `writer.write` inside the line loop is swallowed by the per-line `catch` (worker.js:197-199). This can skip a record's content frame after its reasoning write fails. The model treats writes as infallible.
- The error chunk (worker.js:208-210) is modelled only for a failure of the upstream read. This is `StreamEnd.ReadFailed`, which keeps the frames of the chunks read before it.
- JSON serialisation of chunks and the `data: ...\n\n` framing (worker.js:189, 194, 205-206) are left out. Frames and `Chunks.Event` stand for the serialised text.
- The `choices` array of a chunk (worker.js:271) is flattened into `Chunks.ChatChunk`, and its constant `index: 0` is left out.
- `created` timestamps (`Date.now`) and `crypto.randomUUID` request ids (worker.js:92, 116, 243, 269) are nondeterministic. The id is a parameter and `created` is not modelled.
- The non-streaming response object (worker.js:240-255) and the choice of model and stream flag from the request body (worker.js:127-137) are glue around `Aggregate` and `Transcode`.
- Routing, CORS, error responses and the models listing (worker.js:62-101, 110-123, 275-295) are glue.
- The HTML/JS debugging console (worker.js:298-546) is UI code.
