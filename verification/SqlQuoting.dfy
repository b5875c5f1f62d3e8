/**
 Quoting names and texts into SQL, and how the engine's lexer reads them back: a doubled quote stands
 for a quote, and a backslash escapes the character after it.
 */
module SqlQuoting {
  import opened Wrappers

  const BACKSLASH: char := '\\'
  const SINGLE: char := '\''
  const DOUBLE: char := '\"'

  // ---------- quoting ----------

  /** Every occurrence of a character replaced by a text. */
  function ReplaceAll(s: string, c: char, text: string): string {
    if s == "" then "" else (if s[0] == c then text else [s[0]]) + ReplaceAll(s[1..], c, text)
  }

  predicate IsUnsupported(c: char) {
    c == BACKSLASH || c < 32 as char || c == 127 as char
  }

  /** A quoted identifier; control characters and backslashes are refused. */
  function Identifier(value: string): Option<string> {
    if exists i :: 0 <= i < |value| && IsUnsupported(value[i]) then None
    else Some([DOUBLE] + ReplaceAll(value, DOUBLE, [DOUBLE, DOUBLE]) + [DOUBLE])
  }

  /** A string literal: backslashes are doubled first, then quotes escaped. */
  function Literal(value: string): string {
    [SINGLE] + ReplaceAll(ReplaceAll(value, BACKSLASH, [BACKSLASH, BACKSLASH]), SINGLE, [BACKSLASH, SINGLE]) + [SINGLE]
  }

  // ---------- lexing ----------

  /** What follows the opening quote, up to the closing one, and the rest of the statement. */
  function ReadQuoted(s: string, quote: char): Option<(string, string)>
    decreases |s|, 0
  {
    if s == "" then None
    else if s[0] == BACKSLASH then
      if |s| < 2 then None else Read([s[1]], s[2..], quote)
    else if s[0] == quote then
      if |s| >= 2 && s[1] == quote then Read([quote], s[2..], quote) else Some(("", s[1..]))
    else Read([s[0]], s[1..], quote)
  }

  function Read(first: string, rest: string, quote: char): Option<(string, string)>
    decreases |rest|, 1
  {
    var read := ReadQuoted(rest, quote);
    if read.Some? then Some((first + read.value.0, read.value.1)) else None
  }

  /** A token that begins with this quote. */
  function ReadToken(s: string, quote: char): Option<(string, string)> {
    if s == "" || s[0] != quote then None else ReadQuoted(s[1..], quote)
  }

  // ---------- reading back ----------

  function LiteralBody(value: string): string {
    if value == "" then ""
    else
      var first := if value[0] == BACKSLASH || value[0] == SINGLE then [BACKSLASH, value[0]] else [value[0]];
      first + LiteralBody(value[1..])
  }

  lemma {:induction false} ReplaceAppend(a: string, b: string, c: char, text: string)
    ensures ReplaceAll(a + b, c, text) == ReplaceAll(a, c, text) + ReplaceAll(b, c, text)
  {
    if a == "" {
      assert a + b == b;
    } else {
      assert (a + b)[1..] == a[1..] + b;
      ReplaceAppend(a[1..], b, c, text);
    }
  }

  lemma {:induction false} ReplaceNone(s: string, c: char, text: string)
    requires c !in s
    ensures ReplaceAll(s, c, text) == s
  {
    if s != "" {
      ReplaceNone(s[1..], c, text);
      assert [s[0]] + s[1..] == s;
    }
  }

  /** The two replacements in their order escape each character once. */
  lemma {:induction false} ReplacementsEscapeOnce(value: string)
    ensures ReplaceAll(ReplaceAll(value, BACKSLASH, [BACKSLASH, BACKSLASH]), SINGLE, [BACKSLASH, SINGLE]) ==
              LiteralBody(value)
  {
    if value != "" {
      var first := if value[0] == BACKSLASH then [BACKSLASH, BACKSLASH] else [value[0]];
      var rest := ReplaceAll(value[1..], BACKSLASH, [BACKSLASH, BACKSLASH]);
      ReplacementsEscapeOnce(value[1..]);
      ReplaceAppend(first, rest, SINGLE, [BACKSLASH, SINGLE]);
      if value[0] == SINGLE {
        assert ReplaceAll([SINGLE], SINGLE, [BACKSLASH, SINGLE]) ==
                 [BACKSLASH, SINGLE] + ReplaceAll([SINGLE][1..], SINGLE, [BACKSLASH, SINGLE]);
      } else {
        ReplaceNone(first, SINGLE, [BACKSLASH, SINGLE]);
      }
    }
  }

  lemma {:induction false} EscapedIsRead(c: char, more: string)
    ensures ReadQuoted([BACKSLASH, c] + more, SINGLE) == Read([c], more, SINGLE)
  {
    assert ([BACKSLASH, c] + more)[2..] == more;
  }

  lemma {:induction false} PlainIsRead(c: char, more: string, quote: char)
    requires c != BACKSLASH && c != quote
    ensures ReadQuoted([c] + more, quote) == Read([c], more, quote)
  {
    assert ([c] + more)[1..] == more;
  }

  lemma {:induction false} DoubledIsRead(more: string, quote: char)
    requires quote != BACKSLASH
    ensures ReadQuoted([quote, quote] + more, quote) == Read([quote], more, quote)
  {
    assert ([quote, quote] + more)[2..] == more;
  }

  lemma {:induction false} CloseIsRead(rest: string, quote: char)
    requires quote != BACKSLASH && (rest == "" || rest[0] != quote)
    ensures ReadQuoted([quote] + rest, quote) == Some(("", rest))
  {
    assert ([quote] + rest)[1..] == rest;
  }

  lemma {:induction false} BodyReadsBack(value: string, rest: string)
    requires rest == "" || rest[0] != SINGLE
    ensures ReadQuoted(LiteralBody(value) + [SINGLE] + rest, SINGLE) == Some((value, rest))
  {
    if value == "" {
      CloseIsRead(rest, SINGLE);
      assert LiteralBody(value) + [SINGLE] + rest == [SINGLE] + rest;
    } else {
      BodyReadsBack(value[1..], rest);
      var c, more := value[0], LiteralBody(value[1..]) + [SINGLE] + rest;
      assert [c] + value[1..] == value;
      if c == BACKSLASH || c == SINGLE {
        EscapedIsRead(c, more);
        assert LiteralBody(value) + [SINGLE] + rest == [BACKSLASH, c] + more;
      } else {
        PlainIsRead(c, more, SINGLE);
        assert LiteralBody(value) + [SINGLE] + rest == [c] + more;
      }
    }
  }

  /** A literal reads back as its text, whatever it contains, and leaves the rest of the statement alone. */
  lemma {:induction false} LiteralReadsBack(value: string, rest: string)
    requires rest == "" || rest[0] != SINGLE
    ensures ReadToken(Literal(value) + rest, SINGLE) == Some((value, rest))
  {
    ReplacementsEscapeOnce(value);
    BodyReadsBack(value, rest);
    assert (Literal(value) + rest)[1..] == LiteralBody(value) + [SINGLE] + rest;
  }

  lemma {:induction false} NameReadsBack(value: string, rest: string)
    requires BACKSLASH !in value && (rest == "" || rest[0] != DOUBLE)
    ensures ReadQuoted(ReplaceAll(value, DOUBLE, [DOUBLE, DOUBLE]) + [DOUBLE] + rest, DOUBLE) == Some((value, rest))
  {
    if value == "" {
      CloseIsRead(rest, DOUBLE);
      assert ReplaceAll(value, DOUBLE, [DOUBLE, DOUBLE]) + [DOUBLE] + rest == [DOUBLE] + rest;
    } else {
      NameReadsBack(value[1..], rest);
      var c, more := value[0], ReplaceAll(value[1..], DOUBLE, [DOUBLE, DOUBLE]) + [DOUBLE] + rest;
      assert [c] + value[1..] == value;
      if c == DOUBLE {
        DoubledIsRead(more, DOUBLE);
        assert ReplaceAll(value, DOUBLE, [DOUBLE, DOUBLE]) + [DOUBLE] + rest == [DOUBLE, DOUBLE] + more;
      } else {
        PlainIsRead(c, more, DOUBLE);
        assert ReplaceAll(value, DOUBLE, [DOUBLE, DOUBLE]) + [DOUBLE] + rest == [c] + more;
      }
    }
  }

  /**
   An identifier is refused if and only if it has a backslash or a control character, and otherwise
   reads back as its name.
   */
  lemma {:induction false} IdentifierReadsBack(value: string, rest: string)
    requires rest == "" || rest[0] != DOUBLE
    ensures Identifier(value).None? <==>
              exists c :: c in value && (c == '\\' || c < ' ' || c == 127 as char)
    ensures Identifier(value).Some? ==> ReadToken(Identifier(value).value + rest, DOUBLE) == Some((value, rest))
  {
    if Identifier(value).Some? {
      NameReadsBack(value, rest);
      assert (Identifier(value).value + rest)[1..] == ReplaceAll(value, DOUBLE, [DOUBLE, DOUBLE]) + [DOUBLE] + rest;
    } else {
      var i :| 0 <= i < |value| && IsUnsupported(value[i]);
      assert value[i] in value;
    }
  }
}
