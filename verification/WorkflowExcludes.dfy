/** The Git exclude patterns that keep the board's scaffolding out of a target's status. */
module WorkflowExcludes {
  import opened Wrappers
  import opened Collections
  import opened Lines

  const SPECIAL: set<char> := {'\\', '*', '?', '[', ']'}

  const CONFIG := "backlog.config.yml"

  /** `path.split(sep).join("/")` for a one-character separator. */
  function Normalized(path: string, separator: char): string {
    Map(path, c => if c == separator then '/' else c)
  }

  function Escaped(text: string): string {
    if text == "" then ""
    else
      var c := text[|text| - 1];
      Escaped(text[..|text| - 1]) + if c in SPECIAL then ['\\', c] else [c]
  }

  function PatternOf(normalized: string): string {
    "/" + Escaped(normalized) + if normalized == CONFIG then "" else "/"
  }

  method WorkflowExcludePattern(path: string, separator: char) returns (r: Result<string>)
    ensures var normalized := Normalized(path, separator);
      r == if '\n' in normalized || '\r' in normalized
           then Err("Backlog directory must fit on one Git exclude line") else Ok(PatternOf(normalized))
  {
    var normalized := Normalized(path, separator);
    if '\n' in normalized || '\r' in normalized {
      return Err("Backlog directory must fit on one Git exclude line");
    }
    var escaped := "";
    for i := 0 to |normalized|
      invariant escaped == Escaped(normalized[..i])
    {
      assert normalized[..i + 1][..i] == normalized[..i];
      if normalized[i] in SPECIAL {
        escaped := escaped + "\\";
      }
      escaped := escaped + [normalized[i]];
    }
    assert normalized[..|normalized|] == normalized;
    r := Ok("/" + escaped + if normalized == CONFIG then "" else "/");
  }

  /** How Git reads a pattern back: a backslash stands for the character after it. */
  function Unescaped(pattern: string): string {
    if pattern == "" then ""
    else if pattern[0] == '\\' && |pattern| > 1 then [pattern[1]] + Unescaped(pattern[2..])
    else [pattern[0]] + Unescaped(pattern[1..])
  }

  lemma {:induction false} EscapedFromFront(c: char, text: string)
    ensures Escaped([c] + text) == (if c in SPECIAL then ['\\', c] else [c]) + Escaped(text)
  {
    if text == "" {
      assert ([c] + text)[..0] == "";
      assert Escaped("") == "";
    } else {
      var n := |text| - 1;
      EscapedFromFront(c, text[..n]);
      assert ([c] + text)[..n + 1] == [c] + text[..n];
    }
  }

  /** Git reads an escaped path as the path itself. */
  lemma {:induction false} UnescapeUndoesEscape(text: string)
    ensures Unescaped(Escaped(text)) == text
  {
    if text != "" {
      EscapedFromFront(text[0], text[1..]);
      assert text == [text[0]] + text[1..];
      UnescapeUndoesEscape(text[1..]);
      var rest := Escaped(text[1..]);
      if text[0] in SPECIAL {
        assert (['\\', text[0]] + rest)[2..] == rest;
      } else {
        assert ([text[0]] + rest)[1..] == rest;
      }
    }
  }

  lemma {:induction false} EscapedCharacters(text: string)
    ensures forall c :: c in Escaped(text) ==> c in text || c == '\\'
    ensures text != "" ==> Escaped(text) != "" && Escaped(text)[|Escaped(text)| - 1] == text[|text| - 1]
  {
    if text != "" {
      EscapedCharacters(text[..|text| - 1]);
    }
  }

  /** A pattern is one line, is never empty, and stands for one path alone. */
  lemma PatternsDistinct(a: string, b: string)
    ensures PatternOf(a) == PatternOf(b) <==> a == b
    ensures PatternOf(a) != "" && PatternOf(a)[0] == '/'
    ensures '\n' !in a && '\r' !in a ==> '\n' !in PatternOf(a) && '\r' !in PatternOf(a)
  {
    EscapedCharacters(a);
    EscapedCharacters(b);
    if PatternOf(a) == PatternOf(b) {
      var last := PatternOf(a)[|PatternOf(a)| - 1];
      assert (a == CONFIG) <==> last == 'l';
      assert (b == CONFIG) <==> last == 'l';
      if a != CONFIG {
        assert PatternOf(a)[1..|PatternOf(a)| - 1] == Escaped(a);
        assert PatternOf(b)[1..|PatternOf(b)| - 1] == Escaped(b);
        UnescapeUndoesEscape(a);
        UnescapeUndoesEscape(b);
      }
    }
  }

  lemma EscapedPattern(normalized: string)
    ensures PatternOf(normalized) == Escaped("/" + normalized + if normalized == CONFIG then "" else "/")
  {
    var start := "/" + normalized;
    EscapedFromFront('/', normalized);
    assert "/" == ['/'];
    assert Escaped(start) == "/" + Escaped(normalized);
    if normalized == CONFIG {
      assert start + "" == start;
    } else {
      assert (start + "/")[..|start|] == start;
    }
  }

  /**
   * Git reads a pattern as its path from the root, with slashes for separators, and closed by one
   * unless it is the configuration file's.
   */
  lemma PatternReadsBack(path: string, separator: char)
    ensures var normalized := Normalized(path, separator);
      var read := Unescaped(PatternOf(normalized));
      && |read| == |path| + (if normalized == CONFIG then 1 else 2)
      && read[0] == '/' && (normalized != CONFIG ==> read[|path| + 1] == '/')
      && forall i :: 0 <= i < |path| ==> read[i + 1] == if path[i] == separator then '/' else path[i]
  {
    var normalized := Normalized(path, separator);
    EscapedPattern(normalized);
    UnescapeUndoesEscape("/" + normalized + if normalized == CONFIG then "" else "/");
    hide Escaped, Unescaped;
  }
}
