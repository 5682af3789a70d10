/** The non-streaming variant: the whole upstream body is split into lines,
    blank lines are filtered out, and the reasoning then content of every
    parsable line is appended to one string. */
module Aggregator {
  import opened Wrappers
  import opened Lines
  import opened Decoder
  import opened Transcoder

  /** `lines.filter(l => l.trim())`: the non-blank lines, in order. */
  function NonBlankLines(lines: seq<string>): (kept: seq<string>)
    ensures |kept| <= |lines|
    ensures forall i :: 0 <= i < |kept| ==> !IsBlank(kept[i])
    ensures forall l :: l in kept <==> l in lines && !IsBlank(l)
    ensures forall l :: multiset(kept)[l] == (if IsBlank(l) then 0 else multiset(lines)[l])
    decreases |lines|
  {
    if |lines| == 0 then []
    else
      var rest := NonBlankLines(lines[1..]);
      assert lines == [lines[0]] + lines[1..];
      assert multiset(lines) == multiset{lines[0]} + multiset(lines[1..]);
      if IsBlank(lines[0]) then rest else [lines[0]] + rest
  }

  /** The filter keeps order: filtering a concatenation concatenates the
      filtered parts. */
  lemma {:induction false} NonBlankLinesAppend(a: seq<string>, b: seq<string>)
    ensures NonBlankLines(a + b) == NonBlankLines(a) + NonBlankLines(b)
    decreases |a|
  {
    if |a| > 0 {
      assert (a + b)[0] == a[0];
      assert (a + b)[1..] == a[1..] + b;
      NonBlankLinesAppend(a[1..], b);
    } else {
      assert a + b == b;
    }
  }

  /** Dropping blank lines first does not change the frames they yield. */
  lemma {:induction false} FilterKeepsFrames(parse: Parser, lines: seq<string>)
    ensures LinesFrames(parse, NonBlankLines(lines)) == LinesFrames(parse, lines)
    decreases |lines|
  {
    if |lines| > 0 {
      FilterKeepsFrames(parse, lines[1..]);
      if !IsBlank(lines[0]) {
        assert ([lines[0]] + NonBlankLines(lines[1..]))[1..] == NonBlankLines(lines[1..]);
      }
    }
  }

  /** The text one non-blank line contributes to the aggregate. */
  function LineText(parse: Parser, line: string): string
  {
    match parse(line)
    case None => ""
    case Some(r) => r.reasoning + r.content
  }

  /** `fullContent` after the loop has run over `lines`: the line texts
      accumulated from the first line to the last. */
  function Accumulated(parse: Parser, lines: seq<string>): string
  {
    if |lines| == 0 then ""
    else Accumulated(parse, lines[..|lines| - 1]) + LineText(parse, lines[|lines| - 1])
  }

  /** On non-blank lines the accumulated text is the text of their frames. */
  lemma {:induction false} AccumulatedIsDeltaText(parse: Parser, lines: seq<string>)
    requires forall i :: 0 <= i < |lines| ==> !IsBlank(lines[i])
    ensures Accumulated(parse, lines) == DeltaText(LinesFrames(parse, lines))
    decreases |lines|
  {
    if |lines| > 0 {
      var init, last := lines[..|lines| - 1], lines[|lines| - 1];
      assert init + [last] == lines;
      assert !IsBlank(last);
      AccumulatedIsDeltaText(parse, init);
      LinesFramesSnoc(parse, init, last);
      DeltaTextAppend(LinesFrames(parse, init), LineFrames(parse, last));
    }
  }

  /** The `for (const line of lines)` loop over lines that are already
      non-blank: appends each parsed record's reasoning, then its content. The
      result is the text the lines' delta frames spell. */
  method AccumulateLines(parse: Parser, lines: seq<string>) returns (full: string)
    requires forall i :: 0 <= i < |lines| ==> !IsBlank(lines[i])
    ensures full == DeltaText(LinesFrames(parse, lines))
  {
    full := "";
    for i := 0 to |lines|
      invariant full == Accumulated(parse, lines[..i])
    {
      ghost var before := full;
      match parse(lines[i]) {
        case None =>
        case Some(r) =>
          if r.reasoning != "" {
            full := full + r.reasoning;
          } else {
            assert before + r.reasoning == before;
          }
          ghost var middle := full;
          assert middle == before + r.reasoning;
          if r.content != "" {
            full := full + r.content;
          } else {
            assert middle + r.content == middle;
          }
          assert full == middle + r.content;
          AppendAssoc(before, r.reasoning, r.content);
      }
      assert lines[..i + 1][..i] == lines[..i];
    }
    assert lines[..|lines|] == lines;
    AccumulatedIsDeltaText(parse, lines);
  }

  /** The aggregated text equals what the streamed deltas would spell out
      for every segment of the body, the unterminated last one included. */
  method Aggregate(parse: Parser, text: string) returns (full: string)
    ensures full == DeltaText(LinesFrames(parse, Split(text)))
  {
    var lines := NonBlankLines(Split(text));
    full := AccumulateLines(parse, lines);
    FilterKeepsFrames(parse, Split(text));
  }

  /** The frames of every segment are those of the complete lines followed
      by those of the remainder. */
  lemma SegmentFrames(parse: Parser, text: string)
    ensures LinesFrames(parse, Split(text))
         == LinesFrames(parse, CompleteLines(text)) + LineFrames(parse, Remainder(text))
  {
    SplitDecomposes(text);
    LinesFramesSnoc(parse, CompleteLines(text), Remainder(text));
  }

  /** The streamed text is the delta text of the complete lines. */
  lemma StreamedText(parse: Parser, chunks: seq<string>)
    ensures DeltaText(Transcode(parse, chunks, EndOfStream))
         == DeltaText(LinesFrames(parse, CompleteLines(Concat(chunks))))
  {
    TranscodeIsLineMap(parse, chunks, EndOfStream);
    DeltaTextAppend(LinesFrames(parse, CompleteLines(Concat(chunks))), Terminal(EndOfStream));
    assert DeltaText(Terminal(EndOfStream)) == "";
  }

  /** Streaming versus aggregation over the same body: the aggregated text is
      the streamed delta text followed by the text of the unterminated last
      line, which only the aggregation parses. */
  lemma StreamedVersusAggregated(parse: Parser, chunks: seq<string>)
    ensures DeltaText(LinesFrames(parse, Split(Concat(chunks))))
         == DeltaText(Transcode(parse, chunks, EndOfStream))
          + DeltaText(LineFrames(parse, Remainder(Concat(chunks))))
  {
    var text := Concat(chunks);
    SegmentFrames(parse, text);
    StreamedText(parse, chunks);
    DeltaTextAppend(LinesFrames(parse, CompleteLines(text)), LineFrames(parse, Remainder(text)));
  }

  /** When the body ends with a newline the two modes agree on the text. */
  lemma StreamedEqualsAggregatedWhenTerminated(parse: Parser, chunks: seq<string>)
    requires |Concat(chunks)| > 0 && Concat(chunks)[|Concat(chunks)| - 1] == '\n'
    ensures DeltaText(LinesFrames(parse, Split(Concat(chunks))))
         == DeltaText(Transcode(parse, chunks, EndOfStream))
  {
    var text := Concat(chunks);
    assert text == text[..|text| - 1] + "\n";
    RemainderAfterNewline(text[..|text| - 1]);
    StreamedVersusAggregated(parse, chunks);
    assert DeltaText(LineFrames(parse, "")) == "";
  }

  /** The segment after a final newline is empty. */
  lemma RemainderAfterNewline(s: string)
    ensures Remainder(s + "\n") == ""
  {
    var lines, rem := CompleteLines(s), Remainder(s);
    SplitDecomposes(s);
    CloseLine(lines, rem, s);
    assert Terminated(lines + [rem]) + "" == s + "\n";
    Decomposition(lines + [rem], "", s + "\n");
  }

  /** The divergence: a body whose last line lacks its newline is streamed
      without that line but aggregated with it. */
  lemma UnterminatedLineDiverges()
    ensures var parse: Parser := line => Some(Record("", line));
      && DeltaText(LinesFrames(parse, Split("x"))) == "x"
      && DeltaText(Transcode(parse, ["x"], EndOfStream)) == ""
  {
    var parse: Parser := line => Some(Record("", line));
    SplitSingleSegment("x");
    assert !IsBlank("x") by { assert !IsTrimmed("x"[0]); }
    assert LinesFrames(parse, ["x"]) == [Delta("x")];
    assert Concat(["x"]) == "x" + Concat([]);
    assert CompleteLines("x") == [];
    StreamedText(parse, ["x"]);
  }
}
