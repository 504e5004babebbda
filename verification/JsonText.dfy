/** The JSON text of a list of named values, and that it tells the list. */
module JsonText {
  import opened Wrappers

  /** A name with its value, `null` when it has none. */
  type Entry = (string, Option<string>)

  const DIGITS := "0123456789abcdef"

  function HexDigit(n: nat): char
    requires n < 16
  {
    DIGITS[n]
  }

  /** A character inside a JSON string: quote, backslash and control characters are escaped. */
  function EscapedChar(c: char): string {
    if c == '"' then "\\\""
    else if c == '\\' then "\\\\"
    else if c == '\U{8}' then "\\b"
    else if c == '\U{C}' then "\\f"
    else if c == '\n' then "\\n"
    else if c == '\r' then "\\r"
    else if c == '\t' then "\\t"
    else if c < ' ' then "\\u00" + [HexDigit(c as int / 16), HexDigit(c as int % 16)]
    else [c]
  }

  function StringBody(s: string): string {
    if s == "" then "" else EscapedChar(s[0]) + StringBody(s[1..])
  }

  /** `JSON.stringify` of a string. */
  function StringText(s: string): string {
    "\"" + (StringBody(s) + "\"")
  }

  function ValueText(value: Option<string>): string {
    if value.Some? then StringText(value.value) else "null"
  }

  function EntryText(entry: Entry): string {
    "[" + (StringText(entry.0) + ("," + (ValueText(entry.1) + "]")))
  }

  function MoreText(entries: seq<Entry>): string {
    if entries == [] then "]" else "," + (EntryText(entries[0]) + MoreText(entries[1..]))
  }

  /** `JSON.stringify` of a list of entries. */
  function ListText(entries: seq<Entry>): string {
    if entries == [] then "[]" else "[" + (EntryText(entries[0]) + MoreText(entries[1..]))
  }

  // ---- each text tells where it ends and what it is the text of

  lemma HexDigitTells(a: nat, b: nat)
    requires a < 16 && b < 16 && HexDigit(a) == HexDigit(b)
    ensures a == b
  {
    forall i, j | 0 <= i < j < 16 ensures DIGITS[i] != DIGITS[j] {
    }
  }

  lemma EscapedShape(c: char)
    ensures var e := EscapedChar(c);
      && |e| in {1, 2, 6}
      && (|e| == 1 <==> e[0] != '\\') && e[0] != '"'
      && (|e| == 1 ==> e[0] == c)
      && (|e| > 1 ==> (e[1] == 'u' <==> |e| == 6))
  {
  }

  lemma ShortEscapeTells(c: char, d: char)
    requires |EscapedChar(c)| == 2 && EscapedChar(c) == EscapedChar(d)
    ensures c == d
  {
    assert EscapedChar(c)[1] == EscapedChar(d)[1];
  }

  lemma LongEscapeTells(c: char, d: char)
    requires |EscapedChar(c)| == 6 && EscapedChar(c) == EscapedChar(d)
    ensures c == d
  {
    var e, f := EscapedChar(c), EscapedChar(d);
    assert e[4] == HexDigit(c as int / 16) && f[4] == HexDigit(d as int / 16);
    assert e[5] == HexDigit(c as int % 16) && f[5] == HexDigit(d as int % 16);
    HexDigitTells(c as int / 16, d as int / 16);
    HexDigitTells(c as int % 16, d as int % 16);
  }

  /** No escape begins another. */
  lemma EscapedTells(c: char, d: char, x: string, y: string)
    requires EscapedChar(c) + x == EscapedChar(d) + y
    ensures c == d && x == y
  {
    var e, f := EscapedChar(c), EscapedChar(d);
    EscapedShape(c);
    EscapedShape(d);
    hide EscapedChar;
    assert (e + x)[0] == e[0] && (f + y)[0] == f[0];
    assert |e| > 1 ==> (e + x)[1] == e[1];
    assert |f| > 1 ==> (f + y)[1] == f[1];
    assert |e| == |f|;
    assert e == (e + x)[..|e|] == f;
    assert x == (e + x)[|e|..] == y;
    if |e| == 2 {
      ShortEscapeTells(c, d);
    } else if |e| == 6 {
      LongEscapeTells(c, d);
    }
  }

  lemma Reassociate(a: string, b: string, c: string)
    ensures (a + b) + c == a + (b + c)
    ensures a != "" ==> (a + (b + c))[0] == a[0]
  {
  }

  lemma BodyThenQuote(s: string, x: string)
    ensures s == "" ==> StringBody(s) + ("\"" + x) == "\"" + x
    ensures s != "" ==>
      && StringBody(s) + ("\"" + x) == EscapedChar(s[0]) + (StringBody(s[1..]) + ("\"" + x))
      && (StringBody(s) + ("\"" + x))[0] != '"'
  {
    if s == "" {
      assert "" + ("\"" + x) == "\"" + x;
    } else {
      assert StringBody(s) == EscapedChar(s[0]) + StringBody(s[1..]);
      EscapedShape(s[0]);
      hide EscapedChar, StringBody;
      Reassociate(EscapedChar(s[0]), StringBody(s[1..]), "\"" + x);
    }
  }

  lemma {:induction false} BodyTells(s: string, t: string, x: string, y: string)
    requires StringBody(s) + ("\"" + x) == StringBody(t) + ("\"" + y)
    ensures s == t && x == y
  {
    hide EscapedChar, StringBody;
    BodyThenQuote(s, x);
    BodyThenQuote(t, y);
    if s == "" {
      assert ("\"" + x)[1..] == x && ("\"" + y)[1..] == y;
    } else {
      EscapedTells(s[0], t[0], StringBody(s[1..]) + ("\"" + x), StringBody(t[1..]) + ("\"" + y));
      BodyTells(s[1..], t[1..], x, y);
      assert s == [s[0]] + s[1..] && t == [t[0]] + t[1..];
    }
  }

  lemma StringTells(s: string, t: string, x: string, y: string)
    requires StringText(s) + x == StringText(t) + y
    ensures s == t && x == y
  {
    hide StringBody;
    assert (StringText(s) + x)[1..] == StringBody(s) + ("\"" + x);
    assert (StringText(t) + y)[1..] == StringBody(t) + ("\"" + y);
    BodyTells(s, t, x, y);
  }

  lemma ValueTells(v: Option<string>, w: Option<string>, x: string, y: string)
    requires ValueText(v) + x == ValueText(w) + y
    ensures v == w && x == y
  {
    hide StringBody;
    assert (ValueText(v) + x)[0] == ValueText(v)[0] && (ValueText(w) + y)[0] == ValueText(w)[0];
    if v.Some? {
      StringTells(v.value, w.value, x, y);
    } else {
      assert x == ("null" + x)[4..] && y == ("null" + y)[4..];
    }
  }

  /** After its opening bracket, an entry is its name, its value and what follows. */
  lemma EntryThen(entry: Entry, x: string)
    ensures (EntryText(entry) + x)[1..] == StringText(entry.0) + ("," + (ValueText(entry.1) + ("]" + x)))
  {
    hide StringText, ValueText;
    var value := ValueText(entry.1);
    assert (value + "]") + x == value + ("]" + x);
    assert ("," + (value + "]")) + x == "," + (value + ("]" + x));
    Reassociate(StringText(entry.0), "," + (value + "]"), x);
  }

  lemma AfterFirst(c: char, x: string)
    ensures ([c] + x)[1..] == x
  {
  }

  lemma EntryTells(a: Entry, b: Entry, x: string, y: string)
    requires EntryText(a) + x == EntryText(b) + y
    ensures a == b && x == y
  {
    EntryThen(a, x);
    EntryThen(b, y);
    hide EntryText, StringText, ValueText;
    var u, v := ValueText(a.1) + ("]" + x), ValueText(b.1) + ("]" + y);
    StringTells(a.0, b.0, "," + u, "," + v);
    AfterFirst(',', u);
    AfterFirst(',', v);
    ValueTells(a.1, b.1, "]" + x, "]" + y);
    AfterFirst(']', x);
    AfterFirst(']', y);
  }

  lemma {:induction false} MoreTells(a: seq<Entry>, b: seq<Entry>)
    requires MoreText(a) == MoreText(b)
    ensures a == b
  {
    hide EntryText;
    assert (MoreText(a)[0] == ',' <==> a != []) && (MoreText(b)[0] == ',' <==> b != []);
    if a != [] {
      assert MoreText(a)[1..] == EntryText(a[0]) + MoreText(a[1..]);
      assert MoreText(b)[1..] == EntryText(b[0]) + MoreText(b[1..]);
      EntryTells(a[0], b[0], MoreText(a[1..]), MoreText(b[1..]));
      MoreTells(a[1..], b[1..]);
      assert a == [a[0]] + a[1..] && b == [b[0]] + b[1..];
    }
  }

  /** Two lists with one text are one list. */
  lemma ListTells(a: seq<Entry>, b: seq<Entry>)
    requires ListText(a) == ListText(b)
    ensures a == b
  {
    assert a != [] ==> ListText(a)[1] == EntryText(a[0])[0] == '[';
    assert b != [] ==> ListText(b)[1] == EntryText(b[0])[0] == '[';
    hide EntryText, MoreText;
    if a != [] {
      assert ListText(a)[1..] == EntryText(a[0]) + MoreText(a[1..]);
      assert ListText(b)[1..] == EntryText(b[0]) + MoreText(b[1..]);
      EntryTells(a[0], b[0], MoreText(a[1..]), MoreText(b[1..]));
      MoreTells(a[1..], b[1..]);
      assert a == [a[0]] + a[1..] && b == [b[0]] + b[1..];
    }
  }
}
