/** The record transcoder of the streaming loop: each complete line is parsed
    into a record, each record becomes zero, one or two delta frames, and the
    end of the upstream body adds the terminal frames. */
module Transcoder {
  import opened Wrappers
  import opened Lines
  import opened Decoder

  /** One parsed upstream line; an absent field is the empty string, as
      `data.content || ""` makes it. */
  datatype Record = Record(reasoning: string, content: string)

  /** `JSON.parse` followed by field extraction, kept abstract: None for a
      line that throws. */
  type Parser = string -> Option<Record>

  /** What the translator writes downstream, before JSON serialisation. */
  datatype Frame =
    | Delta(text: string)          // a chunk whose delta is {content: text}
    | Stop                         // the empty-delta chunk with finish reason "stop"
    | ErrorStop(message: string)   // the error chunk written when reading fails
    | Done                         // the literal `data: [DONE]` sentinel

  /** How the upstream body ended: normally, or with a reader error. */
  datatype StreamEnd = EndOfStream | ReadFailed(message: string)

  /** The characters `String.prototype.trim` removes: ECMAScript WhiteSpace
      (TAB, VT, FF, ZWNBSP and the Space_Separator category) and
      LineTerminator (LF, CR, LS, PS). */
  predicate IsTrimmed(c: char)
  {
    || c == '\t' || c == '\n' || c == '\U{000B}' || c == '\U{000C}' || c == '\r'
    || c == ' ' || c == '\U{00A0}' || c == '\U{1680}'
    || ('\U{2000}' <= c <= '\U{200A}')
    || c == '\U{2028}' || c == '\U{2029}' || c == '\U{202F}' || c == '\U{205F}'
    || c == '\U{3000}' || c == '\U{FEFF}'
  }

  /** `s.trimStart()`: `s` without its leading trimmed characters. */
  function TrimStart(s: string): (r: string)
    ensures |r| <= |s| && r == s[|s| - |r|..]
    ensures forall i :: 0 <= i < |s| - |r| ==> IsTrimmed(s[i])
    ensures r == [] || !IsTrimmed(r[0])
  {
    if |s| > 0 && IsTrimmed(s[0]) then TrimStart(s[1..]) else s
  }

  /** `s.trimEnd()`: `s` without its trailing trimmed characters. */
  function TrimEnd(s: string): (r: string)
    ensures |r| <= |s| && r == s[..|r|]
    ensures forall i :: |r| <= i < |s| ==> IsTrimmed(s[i])
    ensures r == [] || !IsTrimmed(r[|r| - 1])
  {
    if |s| > 0 && IsTrimmed(s[|s| - 1]) then TrimEnd(s[..|s| - 1]) else s
  }

  /** `s.trim()`: trimmed characters removed from both ends. What is left
      neither starts nor ends with one. */
  function Trim(s: string): (r: string)
    ensures r == [] || (!IsTrimmed(r[0]) && !IsTrimmed(r[|r| - 1]))
  {
    TrimEnd(TrimStart(s))
  }

  /** `!line.trim()`: the line is empty or whitespace only. */
  predicate IsBlank(line: string)
  {
    forall i :: 0 <= i < |line| ==> IsTrimmed(line[i])
  }

  /** Blankness is exactly what `!line.trim()` tests: `trim` leaves nothing. */
  lemma BlankIffTrimEmpty(line: string)
    ensures IsBlank(line) <==> Trim(line) == []
  {
  }

  /** Every frame is a delta carrying non-empty text. */
  predicate AllDeltas(frames: seq<Frame>)
  {
    forall i :: 0 <= i < |frames| ==> frames[i].Delta? && frames[i].text != ""
  }

  /** The text a client sees: the delta texts in order. */
  function DeltaText(frames: seq<Frame>): string
  {
    if |frames| == 0 then ""
    else (if frames[0].Delta? then frames[0].text else "") + DeltaText(frames[1..])
  }

  /** The frames for one record: reasoning first, then content, each only
      when non-empty. */
  function RecordFrames(r: Record): (frames: seq<Frame>)
    ensures AllDeltas(frames)
    ensures |frames| == (if r.reasoning != "" then 1 else 0) + (if r.content != "" then 1 else 0)
    ensures r.reasoning != "" ==> frames[0] == Delta(r.reasoning)
    ensures r.content != "" ==> frames[|frames| - 1] == Delta(r.content)
    ensures DeltaText(frames) == r.reasoning + r.content
  {
    var reasoning := if r.reasoning != "" then [Delta(r.reasoning)] else [];
    var content := if r.content != "" then [Delta(r.content)] else [];
    assert DeltaText([Delta(r.content)]) == r.content;
    reasoning + content
  }

  /** The frames for one complete line: none for a blank line or one that
      does not parse. */
  function LineFrames(parse: Parser, line: string): (frames: seq<Frame>)
    ensures AllDeltas(frames)
    ensures IsBlank(line) || parse(line).None? ==> frames == []
    ensures !IsBlank(line) && parse(line).Some? ==> frames == RecordFrames(parse(line).value)
  {
    if IsBlank(line) then []
    else
      match parse(line)
      case None => []
      case Some(r) => RecordFrames(r)
  }

  /** The frames for a sequence of complete lines, in line order. */
  function LinesFrames(parse: Parser, lines: seq<string>): (frames: seq<Frame>)
    ensures AllDeltas(frames)
    decreases |lines|
  {
    if |lines| == 0 then []
    else
      var first := LineFrames(parse, lines[0]);
      var rest := LinesFrames(parse, lines[1..]);
      assert AllDeltas(first + rest) by {
        forall i | 0 <= i < |first + rest|
          ensures (first + rest)[i].Delta? && (first + rest)[i].text != ""
        {
          if i >= |first| { assert (first + rest)[i] == rest[i - |first|]; }
        }
      }
      first + rest
  }

  /** The read loop from a given buffer: per chunk, reassemble lines and
      write the frames of each. */
  function StreamFrom(parse: Parser, buffer: string, chunks: seq<string>): (frames: seq<Frame>)
    ensures AllDeltas(frames)
    decreases |chunks|
  {
    if |chunks| == 0 then []
    else
      var fed := Feed(buffer, chunks[0]);
      var first := LinesFrames(parse, fed.lines);
      var rest := StreamFrom(parse, fed.buffer, chunks[1..]);
      assert AllDeltas(first + rest) by {
        forall i | 0 <= i < |first + rest|
          ensures (first + rest)[i].Delta? && (first + rest)[i].text != ""
        {
          if i >= |first| { assert (first + rest)[i] == rest[i - |first|]; }
        }
      }
      first + rest
  }

  /** The frames written after the loop ends: no deltas; exactly one frame
      that finishes the response (Stop on a normal end, ErrorStop carrying
      the failure message otherwise), and Done, last, only on a normal end. */
  function Terminal(end: StreamEnd): (frames: seq<Frame>)
    ensures |frames| == (if end.EndOfStream? then 2 else 1)
    ensures forall i :: 0 <= i < |frames| ==> !frames[i].Delta?
    ensures frames[0] == (if end.EndOfStream? then Stop else ErrorStop(end.message))
    ensures Done in frames <==> end.EndOfStream?
    ensures end.EndOfStream? ==> frames[|frames| - 1] == Done
  {
    match end
    case EndOfStream => [Stop, Done]
    case ReadFailed(message) => [ErrorStop(message)]
  }

  /** The whole translated stream of one request. Before the terminal frames
      there are only non-empty deltas; a normal end gives exactly one Stop
      followed by Done, a read failure one ErrorStop and no Done. */
  function Transcode(parse: Parser, chunks: seq<string>, end: StreamEnd): (frames: seq<Frame>)
    ensures end.EndOfStream? ==>
      |frames| >= 2 && frames[|frames| - 2] == Stop && frames[|frames| - 1] == Done
      && AllDeltas(frames[..|frames| - 2])
    ensures end.ReadFailed? ==>
      |frames| >= 1 && frames[|frames| - 1] == ErrorStop(end.message)
      && AllDeltas(frames[..|frames| - 1])
  {
    var body := StreamFrom(parse, "", chunks);
    assert (body + Terminal(end))[..|body|] == body;
    body + Terminal(end)
  }

  /** Frames of consecutive line groups are consecutive. */
  lemma {:induction false} LinesFramesAppend(parse: Parser, a: seq<string>, b: seq<string>)
    ensures LinesFrames(parse, a + b) == LinesFrames(parse, a) + LinesFrames(parse, b)
    decreases |a|
  {
    if |a| == 0 {
      assert a + b == b;
    } else {
      assert (a + b)[1..] == a[1..] + b;
      LinesFramesAppend(parse, a[1..], b);
    }
  }

  /** Frames of lines followed by one more line. */
  lemma LinesFramesSnoc(parse: Parser, lines: seq<string>, last: string)
    ensures LinesFrames(parse, lines + [last]) == LinesFrames(parse, lines) + LineFrames(parse, last)
  {
    LinesFramesAppend(parse, lines, [last]);
    assert [last][1..] == [];
    assert LinesFrames(parse, [last]) == LineFrames(parse, last) + [];
  }

  /** DeltaText distributes over frame concatenation. */
  lemma {:induction false} DeltaTextAppend(a: seq<Frame>, b: seq<Frame>)
    ensures DeltaText(a + b) == DeltaText(a) + DeltaText(b)
    decreases |a|
  {
    if |a| == 0 {
      assert a + b == b;
    } else {
      assert (a + b)[1..] == a[1..] + b;
      DeltaTextAppend(a[1..], b);
    }
  }

  /** A blank or unparsable line produces nothing and leaves the frames of
      the lines around it unchanged. */
  lemma SkippedLine(parse: Parser, before: seq<string>, line: string, after: seq<string>)
    requires IsBlank(line) || parse(line).None?
    ensures LinesFrames(parse, before + [line] + after)
         == LinesFrames(parse, before) + LinesFrames(parse, after)
  {
    LinesFramesAppend(parse, before + [line], after);
    LinesFramesAppend(parse, before, [line]);
    assert [line][1..] == [];
    assert LinesFrames(parse, [line]) == LineFrames(parse, line) + LinesFrames(parse, []);
    assert LinesFrames(parse, before + [line]) == LinesFrames(parse, before);
  }

  /** The loop's output is the frames of the lines the reassembler yields. */
  lemma {:induction false} StreamFromReassembles(parse: Parser, buffer: string, chunks: seq<string>)
    ensures StreamFrom(parse, buffer, chunks) == LinesFrames(parse, ReassembleFrom(buffer, chunks).lines)
    decreases |chunks|
  {
    if |chunks| > 0 {
      var fed := Feed(buffer, chunks[0]);
      StreamFromReassembles(parse, fed.buffer, chunks[1..]);
      LinesFramesAppend(parse, fed.lines, ReassembleFrom(fed.buffer, chunks[1..]).lines);
    }
  }

  /** The stream is the frames of the complete lines of the whole upstream
      text, in line order, followed by the terminal frames; the unterminated
      last segment contributes nothing. */
  lemma {:induction false} TranscodeIsLineMap(parse: Parser, chunks: seq<string>, end: StreamEnd)
    ensures Transcode(parse, chunks, end)
         == LinesFrames(parse, CompleteLines(Concat(chunks))) + Terminal(end)
  {
    StreamFromReassembles(parse, "", chunks);
    ReassembleIsSplit(chunks);
  }

  /** Chunk-boundary independence of the translated stream. */
  lemma {:induction false} TranscodeChunkIndependent(parse: Parser, c1: seq<string>, c2: seq<string>, end: StreamEnd)
    requires Concat(c1) == Concat(c2)
    ensures Transcode(parse, c1, end) == Transcode(parse, c2, end)
  {
    TranscodeIsLineMap(parse, c1, end);
    TranscodeIsLineMap(parse, c2, end);
  }

  /** A final chunk without a newline changes nothing: it stays in the
      buffer and is never parsed. */
  lemma TranscodeIgnoresTail(parse: Parser, chunks: seq<string>, tail: string, end: StreamEnd)
    requires '\n' !in tail
    ensures Transcode(parse, chunks + [tail], end) == Transcode(parse, chunks, end)
  {
    ConcatAppend(chunks, [tail]);
    assert [tail][1..] == [];
    assert Concat([tail]) == tail + Concat([]);
    assert Concat(chunks + [tail]) == Concat(chunks) + tail;
    UnterminatedTail(Concat(chunks), tail);
    TranscodeIsLineMap(parse, chunks + [tail], end);
    TranscodeIsLineMap(parse, chunks, end);
  }

  /** Frames depend on the parser only through the lines it is given. */
  lemma {:induction false} LinesFramesParserAgnostic(p1: Parser, p2: Parser, lines: seq<string>)
    requires forall i :: 0 <= i < |lines| ==> p1(lines[i]) == p2(lines[i])
    ensures LinesFrames(p1, lines) == LinesFrames(p2, lines)
    decreases |lines|
  {
    if |lines| > 0 {
      assert p1(lines[0]) == p2(lines[0]);
      LinesFramesParserAgnostic(p1, p2, lines[1..]);
    }
  }

  /** Only complete lines reach the parser: two parsers that agree on them
      give the same stream, whatever they say of the buffered remainder. */
  lemma TranscodeParsesCompleteLinesOnly(p1: Parser, p2: Parser, chunks: seq<string>, end: StreamEnd)
    requires forall i :: 0 <= i < |CompleteLines(Concat(chunks))| ==>
      p1(CompleteLines(Concat(chunks))[i]) == p2(CompleteLines(Concat(chunks))[i])
    ensures Transcode(p1, chunks, end) == Transcode(p2, chunks, end)
  {
    TranscodeIsLineMap(p1, chunks, end);
    TranscodeIsLineMap(p2, chunks, end);
    LinesFramesParserAgnostic(p1, p2, CompleteLines(Concat(chunks)));
  }
}
