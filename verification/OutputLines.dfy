/** A command's output as it arrives: the whole text, and each line as soon as it ends. */
module OutputLines {
  import opened Lines

  /** The lines a whole text delivers: its split, without an empty last piece. */
  function DeliveredLines(text: string): seq<string> {
    var lines := SplitLines(text);
    if Last(lines) == "" then AllButLast(lines) else lines
  }

  /** `text.indexOf("\n", from)` */
  function IndexOfNewline(text: string, from: nat): (at: int)
    requires from <= |text|
    ensures at == -1 || from <= at < |text|
    ensures at != -1 ==> text[at] == '\n' && '\n' !in text[from..at]
    ensures at == -1 ==> '\n' !in text[from..]
    decreases |text| - from
  {
    if from == |text| then -1
    else if text[from] == '\n' then from
    else
      var at := IndexOfNewline(text, from + 1);
      assert text[from..] == [text[from]] + text[from + 1..];
      assert at != -1 ==> text[from..at] == [text[from]] + text[from + 1..at];
      at
  }

  /** The lines that have ended in what arrived. */
  function EndedLines(text: string): seq<string> {
    AllButLast(SplitLines(text))
  }

  class CommandOutputLines {
    var text: string
    var lineStart: nat
    /** What `onLine` was handed, in order. */
    var delivered: seq<string>
    /** How often `onChunk` was told of a chunk. */
    var chunks: nat

    constructor ()
      ensures Valid() && text == "" && delivered == [] && chunks == 0
    {
      text, lineStart, delivered, chunks := "", 0, [], 0;
    }

    /** Every ended line was delivered, and `lineStart` is where the one still open began. */
    ghost predicate Valid()
      reads this
    {
      lineStart <= |text| && AtLineStart(text[..lineStart]) && '\n' !in text[lineStart..]
      && delivered == EndedLines(text)
    }

    method Append(chunk: string)
      requires Valid()
      modifies this
      ensures Valid() && text == old(text) + chunk && chunks == old(chunks) + 1
      ensures delivered == EndedLines(old(text) + chunk)
      ensures old(delivered) <= delivered
    {
      chunks := chunks + 1;
      ghost var before := text;
      LastLineOpens(text, lineStart);
      text := text + chunk;
      assert text[..lineStart] == before[..lineStart];
      DeliverTerminatedLines();
    }

    method DeliverTerminatedLines()
      requires lineStart <= |text| && AtLineStart(text[..lineStart])
      requires delivered == EndedLines(text[..lineStart])
      modifies this`lineStart, this`delivered
      ensures Valid() && old(delivered) <= delivered
    {
      var lineEnd := IndexOfNewline(text, lineStart);
      while lineEnd != -1
        invariant lineStart <= |text| && AtLineStart(text[..lineStart])
        invariant delivered == EndedLines(text[..lineStart]) && old(delivered) <= delivered
        invariant lineEnd == IndexOfNewline(text, lineStart)
        decreases |text| - lineStart
      {
        OneMoreLine(text, lineStart, lineEnd);
        delivered := delivered + [text[lineStart..lineEnd]];
        lineStart := lineEnd + 1;
        lineEnd := IndexOfNewline(text, lineStart);
      }
      NoMoreLines(text, lineStart);
    }

    /** `tail` is what the decoder held back; it never holds a newline. */
    method Finish(tail: string) returns (whole: string)
      requires Valid() && '\n' !in tail
      modifies this`text, this`delivered
      ensures whole == text == old(text) + tail
      ensures delivered == DeliveredLines(whole)
    {
      ghost var before := text;
      LastLineOpens(text, lineStart);
      SplitExtends(text, tail);
      SplitPieces(text + tail);
      text := text + tail;
      assert text[lineStart..] == before[lineStart..] + tail;
      if lineStart < |text| {
        delivered := delivered + [text[lineStart..]];
      }
      whole := text;
    }
  }

  lemma OneMoreLine(text: string, start: nat, end: nat)
    requires start <= end < |text| && AtLineStart(text[..start])
    requires text[end] == '\n' && '\n' !in text[start..end]
    ensures EndedLines(text[..end + 1]) == EndedLines(text[..start]) + [text[start..end]]
    ensures AtLineStart(text[..end + 1])
  {
    var line := text[start..end];
    assert text[..end] == text[..start] + line;
    SplitExtends(text[..start], line);
    SplitPieces(text[..start]);
    assert "" + line == line;
    assert text[..end + 1] == text[..end] + ['\n'];
    SplitOneMore(text[..end], '\n');
    hide SplitLines;
  }

  lemma NoMoreLines(text: string, start: nat)
    requires start <= |text| && AtLineStart(text[..start]) && '\n' !in text[start..]
    ensures EndedLines(text) == EndedLines(text[..start])
  {
    assert text == text[..start] + text[start..];
    SplitExtends(text[..start], text[start..]);
  }

  lemma LastLineOpens(text: string, start: nat)
    requires start <= |text| && AtLineStart(text[..start]) && '\n' !in text[start..]
    ensures Last(SplitLines(text)) == text[start..]
    ensures EndedLines(text[..start]) == EndedLines(text)
  {
    assert text == text[..start] + text[start..];
    SplitExtends(text[..start], text[start..]);
    SplitPieces(text[..start]);
    assert "" + text[start..] == text[start..];
  }

  function Whole(chunks: seq<string>): string {
    if chunks == [] then "" else Whole(chunks[..|chunks| - 1]) + chunks[|chunks| - 1]
  }

  /** However the text was cut into chunks, its lines are delivered once each and in order. */
  method ReadAll(chunks: seq<string>, tail: string) returns (text: string, lines: seq<string>, told: nat)
    requires '\n' !in tail
    ensures text == Whole(chunks) + tail
    ensures lines == DeliveredLines(Whole(chunks) + tail)
    ensures told == |chunks|
  {
    var reader := new CommandOutputLines();
    for i := 0 to |chunks|
      invariant reader.Valid() && fresh(reader)
      invariant reader.text == Whole(chunks[..i]) && reader.chunks == i
    {
      assert chunks[..i + 1][..i] == chunks[..i];
      reader.Append(chunks[i]);
    }
    assert chunks[..|chunks|] == chunks;
    text := reader.Finish(tail);
    lines, told := reader.delivered, reader.chunks;
  }

  function Terminated(lines: seq<string>): string {
    if lines == [] then "" else lines[0] + "\n" + Terminated(lines[1..])
  }

  lemma {:induction false} TerminatedIsJoin(lines: seq<string>)
    ensures Terminated(lines) == JoinLines(lines + [""])
  {
    if lines != [] {
      TerminatedIsJoin(lines[1..]);
      assert (lines + [""])[1..] == lines[1..] + [""];
    }
  }

  /** The delivered lines are the text again, each ended by a newline, the last one's perhaps missing. */
  lemma DeliveredLinesRebuild(text: string)
    ensures OneLineEach(DeliveredLines(text))
    ensures Terminated(DeliveredLines(text)) == if AtLineStart(text) then text else text + "\n"
  {
    SplitPieces(text);
    JoinOfSplit(text);
    var lines := SplitLines(text);
    TerminatedIsJoin(DeliveredLines(text));
    if AtLineStart(text) {
      assert AllButLast(lines) + [""] == lines;
    } else {
      JoinConcat(lines, [""]);
    }
  }
}
