/** The line reassembler of the streaming loop: every decoded text chunk is
    appended to a carry-over buffer, the buffer is split on '\n', the last
    segment becomes the new buffer and the other segments are the complete
    lines handed on to the transcoder. */
module Decoder {
  import opened Lines

  /** Complete lines produced so far, and the unterminated tail kept back. */
  datatype Decoded = Decoded(lines: seq<string>, buffer: string)

  /** Every segment of `text` except the last: the lines that a '\n' has
      terminated, none of them containing a newline. */
  function CompleteLines(text: string): (lines: seq<string>)
    ensures NoNewlines(lines)
  {
    var segs := Split(text);
    NoNewlinesPrefix(segs, |segs| - 1);
    segs[..|segs| - 1]
  }

  /** The last segment of `text`: what follows its final '\n'. It holds no
      newline, and the complete lines, each terminated, followed by it give
      back `text`. */
  function Remainder(text: string): (tail: string)
    ensures '\n' !in tail
    ensures Terminated(CompleteLines(text)) + tail == text
  {
    var segs := Split(text);
    assert CompleteLines(text) + [segs[|segs| - 1]] == segs;
    JoinTerminated(CompleteLines(text), segs[|segs| - 1]);
    segs[|segs| - 1]
  }

  /** The decomposition of a text into terminated lines and a newline-free
      tail is unique, and it is the one CompleteLines/Remainder compute. */
  lemma Decomposition(lines: seq<string>, tail: string, text: string)
    requires NoNewlines(lines) && '\n' !in tail
    requires Terminated(lines) + tail == text
    ensures CompleteLines(text) == lines
    ensures Remainder(text) == tail
  {
    JoinTerminated(lines, tail);
    assert NoNewlines(lines + [tail]) by {
      forall i | 0 <= i < |lines + [tail]| ensures '\n' !in (lines + [tail])[i] {
        if i < |lines| { assert (lines + [tail])[i] == lines[i]; }
      }
    }
    SplitJoin(lines + [tail]);
    assert Split(text) == lines + [tail];
  }

  /** Every text is its complete lines, each terminated, followed by its
      newline-free remainder. */
  lemma SplitDecomposes(text: string)
    ensures Split(text) == CompleteLines(text) + [Remainder(text)]
    ensures NoNewlines(CompleteLines(text)) && '\n' !in Remainder(text)
    ensures Terminated(CompleteLines(text)) + Remainder(text) == text
  {
    var segs := Split(text);
    assert CompleteLines(text) + [Remainder(text)] == segs;
  }

  /** Terminating the remainder turns it into one more complete line. */
  lemma CloseLine(lines: seq<string>, rem: string, text: string)
    requires NoNewlines(lines) && '\n' !in rem
    requires Terminated(lines) + rem == text
    ensures NoNewlines(lines + [rem])
    ensures Terminated(lines + [rem]) == text + "\n"
  {
    NoNewlinesAppend(lines, [rem]);
    TerminatedAppend(lines, [rem]);
    assert Terminated([rem]) == rem + "\n" + Terminated([]);
    AppendBoth(Terminated(lines), rem, text, "\n");
  }

  /** One iteration of the read loop: `buffer += chunk;
      lines = buffer.split('\n'); buffer = lines.pop() || ""`. No character
      is lost or duplicated, and the new buffer holds no newline. */
  function Feed(buffer: string, chunk: string): (d: Decoded)
    ensures '\n' !in d.buffer
    ensures NoNewlines(d.lines)
    ensures Terminated(d.lines) + d.buffer == buffer + chunk
  {
    var text := buffer + chunk;
    SplitDecomposes(text);
    Decoded(CompleteLines(text), Remainder(text))
  }

  /** The read loop folded over the chunk sequence, starting from `buffer`:
      the complete lines of all iterations in order, and the final buffer. */
  function ReassembleFrom(buffer: string, chunks: seq<string>): (d: Decoded)
    ensures '\n' !in buffer ==> '\n' !in d.buffer
    ensures NoNewlines(d.lines)
    ensures Terminated(d.lines) + d.buffer == buffer + Concat(chunks)
    decreases |chunks|
  {
    if |chunks| == 0 then Decoded([], buffer)
    else
      var first := Feed(buffer, chunks[0]);
      var rest := ReassembleFrom(first.buffer, chunks[1..]);
      assert Concat(chunks) == chunks[0] + Concat(chunks[1..]);
      StepComposes(buffer, chunks[0], Concat(chunks[1..]), first, rest);
      Decoded(first.lines + rest.lines, rest.buffer)
  }

  /** Two consecutive reassembly results compose into one. */
  lemma StepComposes(buffer: string, chunk: string, more: string, first: Decoded, rest: Decoded)
    requires NoNewlines(first.lines) && NoNewlines(rest.lines)
    requires Terminated(first.lines) + first.buffer == buffer + chunk
    requires Terminated(rest.lines) + rest.buffer == first.buffer + more
    ensures NoNewlines(first.lines + rest.lines)
    ensures Terminated(first.lines + rest.lines) + rest.buffer == buffer + (chunk + more)
  {
    TerminatedAppend(first.lines, rest.lines);
    NoNewlinesAppend(first.lines, rest.lines);
    Splice(Terminated(first.lines), first.buffer, buffer + chunk,
           Terminated(rest.lines), rest.buffer, more);
  }

  /** The reassembler of one request, which starts with an empty buffer. */
  function Reassemble(chunks: seq<string>): (d: Decoded)
    ensures '\n' !in d.buffer
    ensures NoNewlines(d.lines)
    ensures Terminated(d.lines) + d.buffer == Concat(chunks)
  {
    ReassembleFrom("", chunks)
  }

  /** Whatever the chunking, the reassembler yields exactly the complete
      lines of the concatenated text and keeps its last segment buffered. */
  lemma ReassembleIsSplit(chunks: seq<string>)
    ensures Reassemble(chunks).lines == CompleteLines(Concat(chunks))
    ensures Reassemble(chunks).buffer == Remainder(Concat(chunks))
  {
    var d := Reassemble(chunks);
    Decomposition(d.lines, d.buffer, Concat(chunks));
  }

  /** Chunk-boundary independence: two chunkings of the same text give the
      same lines and the same final buffer. */
  lemma ChunkBoundaryIndependence(c1: seq<string>, c2: seq<string>)
    requires Concat(c1) == Concat(c2)
    ensures Reassemble(c1) == Reassemble(c2)
  {
    ReassembleIsSplit(c1);
    ReassembleIsSplit(c2);
  }

  /** Appending a newline-free tail to a text adds nothing to its complete
      lines; it only extends the remainder. */
  lemma UnterminatedTail(text: string, tail: string)
    requires '\n' !in tail
    ensures CompleteLines(text + tail) == CompleteLines(text)
    ensures Remainder(text + tail) == Remainder(text) + tail
  {
    var lines, rem := CompleteLines(text), Remainder(text);
    SplitDecomposes(text);
    NoNewlineConcat(rem, tail);
    AppendBoth(Terminated(lines), rem, text, tail);
    Decomposition(lines, rem + tail, text + tail);
  }
}
