/** The OpenAI chat-completion chunks the frames are rendered to
    (`createChatCompletionChunk`), without the `created` timestamp and
    without JSON serialisation. */
module Chunks {
  import opened Wrappers
  import opened Transcoder

  /** The `delta` object: `{}` or `{content: ...}`. */
  datatype DeltaBody = EmptyDelta | ContentDelta(content: string)

  /** One `chat.completion.chunk` with its single choice flattened in; the
      choice's constant `index: 0` is not represented. */
  datatype ChatChunk = ChatChunk(
    id: string,
    kind: string,
    model: string,
    delta: DeltaBody,
    finishReason: Option<string>)

  /** The `object` field of every streamed chunk. */
  const ChunkKind: string := "chat.completion.chunk"

  /** The finish reason of the terminal chunks. */
  const StopReason: string := "stop"

  /** One SSE event: `data: <chunk>` or the `data: [DONE]` sentinel. */
  datatype Event = Data(chunk: ChatChunk) | DoneSentinel

  /** `createChatCompletionChunk(id, model, content, finishReason = null)`:
      the delta is empty exactly when the content is, and the identifiers and
      finish reason pass through unchanged. */
  function CreateChatCompletionChunk(id: string, model: string, content: string,
                                     finishReason: Option<string> := None): (c: ChatChunk)
    ensures c.id == id && c.model == model && c.kind == ChunkKind
    ensures c.finishReason == finishReason
    ensures c.delta.EmptyDelta? <==> content == ""
    ensures c.delta.ContentDelta? ==> c.delta.content == content
  {
    ChatChunk(id, ChunkKind, model, if content != "" then ContentDelta(content) else EmptyDelta, finishReason)
  }

  /** The content of the chunk written when reading the upstream body fails. */
  function ErrorText(message: string): string
  {
    "\n\n[Error: " + message + "]"
  }

  /** The event written for one frame: the sentinel for Done and a chunk of
      the request otherwise. The chunk carries the finish reason "stop"
      exactly for Stop and ErrorStop, and none for a delta; its content is
      the delta's text or the error's message text. */
  function Render(id: string, model: string, f: Frame): (e: Event)
    ensures e.DoneSentinel? <==> f.Done?
    ensures e.Data? ==> e.chunk.id == id && e.chunk.model == model && e.chunk.kind == ChunkKind
    ensures IsStopEvent(e) <==> f.Stop? || f.ErrorStop?
    ensures f.Delta? && f.text != "" ==> e.chunk.delta == ContentDelta(f.text)
    ensures f.Stop? ==> e.chunk.delta == EmptyDelta
    ensures f.ErrorStop? ==> e.chunk.delta == ContentDelta(ErrorText(f.message))
    ensures f.Delta? ==> e.chunk.finishReason == None
  {
    match f
    case Delta(text) => Data(CreateChatCompletionChunk(id, model, text))
    case Stop => Data(CreateChatCompletionChunk(id, model, "", Some(StopReason)))
    case ErrorStop(message) => Data(CreateChatCompletionChunk(id, model, ErrorText(message), Some(StopReason)))
    case Done => DoneSentinel
  }

  /** Whether an event is a chunk carrying the finish reason "stop". */
  predicate IsStopEvent(e: Event)
  {
    e.Data? && e.chunk.finishReason == Some(StopReason)
  }

  /** The events written for a frame sequence, one per frame, in order. */
  function RenderAll(id: string, model: string, frames: seq<Frame>): (events: seq<Event>)
    ensures |events| == |frames|
    ensures forall i :: 0 <= i < |frames| ==> events[i] == Render(id, model, frames[i])
  {
    seq(|frames|, i requires 0 <= i < |frames| => Render(id, model, frames[i]))
  }

  /** The events of a normally ended request: every data chunk carries the
      request id and model; every chunk before the last two carries the
      non-empty text of the frame at its position and no finish reason; then exactly one empty-delta
      "stop" chunk, then the sentinel. */
  lemma RenderedStreamOnEnd(parse: Parser, chunks: seq<string>, id: string, model: string)
    ensures var frames := Transcode(parse, chunks, EndOfStream);
      var events := RenderAll(id, model, frames);
      && |events| >= 2
      && events[|events| - 1] == DoneSentinel
      && events[|events| - 2] == Data(ChatChunk(id, ChunkKind, model, EmptyDelta, Some(StopReason)))
      && (forall i :: 0 <= i < |events| - 2 ==>
            events[i] == Data(ChatChunk(id, ChunkKind, model, ContentDelta(frames[i].text), None))
            && frames[i].text != "")
      && (forall i :: 0 <= i < |events| && IsStopEvent(events[i]) ==> i == |events| - 2)
  {
  }

  /** The events of a request whose upstream read failed: the chunks before
      the last carry the texts of the deltas read so far; the last event is
      the "stop" chunk carrying the error text, it is the only "stop" chunk,
      and no sentinel is written. */
  lemma RenderedStreamOnReadFailure(parse: Parser, chunks: seq<string>, message: string,
                                                       id: string, model: string)
    ensures var frames := Transcode(parse, chunks, ReadFailed(message));
      var events := RenderAll(id, model, frames);
      && |events| >= 1
      && (forall i :: 0 <= i < |events| - 1 ==>
            events[i] == Data(ChatChunk(id, ChunkKind, model, ContentDelta(frames[i].text), None))
            && frames[i].text != "")
      && events[|events| - 1]
         == Data(ChatChunk(id, ChunkKind, model, ContentDelta(ErrorText(message)), Some(StopReason)))
      && DoneSentinel !in events
      && (forall i :: 0 <= i < |events| && IsStopEvent(events[i]) ==> i == |events| - 1)
  {
  }
}
