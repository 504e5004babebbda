/** Text and its lines, as `text.split("\n")` and `lines.join("\n")` relate them. */
module Lines {

  /** `text.split("\n")` */
  function SplitLines(text: string): (lines: seq<string>)
    ensures lines != []
  {
    if text == "" then [""]
    else
      var before := SplitLines(text[..|text| - 1]);
      var c := text[|text| - 1];
      if c == '\n' then before + [""]
      else before[..|before| - 1] + [before[|before| - 1] + [c]]
  }

  /** `lines.join("\n")` */
  function JoinLines(lines: seq<string>): string {
    if lines == [] then ""
    else if |lines| == 1 then lines[0]
    else lines[0] + "\n" + JoinLines(lines[1..])
  }

  ghost predicate OneLineEach(lines: seq<string>) {
    forall i :: 0 <= i < |lines| ==> '\n' !in lines[i]
  }

  predicate AtLineStart(text: string) {
    text == "" || text[|text| - 1] == '\n'
  }

  function Last(lines: seq<string>): string
    requires lines != []
  {
    lines[|lines| - 1]
  }

  function AllButLast(lines: seq<string>): seq<string>
    requires lines != []
  {
    lines[..|lines| - 1]
  }

  lemma {:induction false} SplitPieces(text: string)
    ensures OneLineEach(SplitLines(text))
    ensures Last(SplitLines(text)) == "" <==> AtLineStart(text)
  {
    if text != "" {
      SplitPieces(text[..|text| - 1]);
    }
  }

  /** Text without a newline only lengthens the last line. */
  lemma {:induction false} SplitExtends(text: string, more: string)
    requires '\n' !in more
    ensures SplitLines(text + more) == AllButLast(SplitLines(text)) + [Last(SplitLines(text)) + more]
  {
    if more == "" {
      assert text + more == text;
      assert Last(SplitLines(text)) + more == Last(SplitLines(text));
    } else {
      var front := more[..|more| - 1];
      assert (text + more)[..|text + more| - 1] == text + front;
      SplitExtends(text, front);
      assert Last(SplitLines(text)) + more == Last(SplitLines(text)) + front + [more[|more| - 1]];
    }
  }

  lemma SplitOneMore(text: string, c: char)
    ensures SplitLines(text + [c])
         == if c == '\n' then SplitLines(text) + [""]
            else AllButLast(SplitLines(text)) + [Last(SplitLines(text)) + [c]]
  {
    assert (text + [c])[..|text|] == text;
  }

  /** After a newline the lines go on as if the rest stood alone. */
  lemma {:induction false} SplitAfterNewline(text: string, more: string)
    ensures SplitLines(text + "\n" + more) == SplitLines(text) + SplitLines(more)
  {
    hide SplitLines, AllButLast, Last;
    if more == "" {
      assert SplitLines("") == [""] by {
        SplitOneLine("");
      }
      assert text + "\n" + more == text + "\n";
      SplitOneMore(text, '\n');
    } else {
      var front, c := more[..|more| - 1], more[|more| - 1];
      SplitAfterNewline(text, front);
      assert more == front + [c];
      assert text + "\n" + more == (text + "\n" + front) + [c];
      SplitOneMore(text + "\n" + front, c);
      SplitOneMore(front, c);
      OneMoreAfter(SplitLines(text), SplitLines(front), c);
    }
  }

  lemma OneMoreAfter(before: seq<string>, tail: seq<string>, c: char)
    requires tail != []
    ensures (before + tail) + [""] == before + (tail + [""])
    ensures AllButLast(before + tail) + [Last(before + tail) + [c]] == before + (AllButLast(tail) + [Last(tail) + [c]])
  {
  }

  lemma {:induction false} SplitOfJoin(lines: seq<string>)
    requires lines != [] && OneLineEach(lines)
    ensures SplitLines(JoinLines(lines)) == lines
  {
    hide SplitLines;
    SplitOneLine(lines[0]);
    if |lines| > 1 {
      var tail := lines[1..];
      assert lines == [lines[0]] + tail;
      OneLineEachTail(lines);
      SplitOfJoin(tail);
      assert JoinLines(lines) == lines[0] + "\n" + JoinLines(tail);
      hide JoinLines, OneLineEach;
      SplitAfterNewline(lines[0], JoinLines(tail));
    }
  }

  lemma OneLineEachTail(lines: seq<string>)
    requires lines != [] && OneLineEach(lines)
    ensures OneLineEach(lines[1..])
  {
    assert forall i :: 0 <= i < |lines[1..]| ==> lines[1..][i] == lines[i + 1];
  }

  lemma SplitOneLine(line: string)
    requires '\n' !in line
    ensures SplitLines(line) == [line]
  {
    SplitExtends("", line);
    assert "" + line == line;
  }

  lemma {:induction false} JoinConcat(a: seq<string>, b: seq<string>)
    requires a != [] && b != []
    ensures JoinLines(a + b) == JoinLines(a) + "\n" + JoinLines(b)
  {
    if |a| == 1 {
      assert (a + b)[1..] == b;
    } else {
      assert (a + b)[1..] == a[1..] + b;
      JoinConcat(a[1..], b);
    }
  }

  lemma {:induction false} JoinLengthens(lines: seq<string>, more: string)
    requires lines != []
    ensures JoinLines(AllButLast(lines) + [Last(lines) + more]) == JoinLines(lines) + more
  {
    if |lines| > 1 {
      var longer := AllButLast(lines) + [Last(lines) + more];
      JoinLengthens(lines[1..], more);
      assert longer[1..] == AllButLast(lines[1..]) + [Last(lines[1..]) + more];
    }
  }

  lemma {:induction false} JoinOfSplit(text: string)
    ensures JoinLines(SplitLines(text)) == text
  {
    if text != "" {
      var front, c := text[..|text| - 1], text[|text| - 1];
      JoinOfSplit(front);
      var before := SplitLines(front);
      if c == '\n' {
        JoinConcat(before, [""]);
      } else {
        JoinLengthens(before, [c]);
      }
    }
  }
}
