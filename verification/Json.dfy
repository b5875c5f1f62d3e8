/** JSON values, their compact printing without ASCII escaping, and its length in bytes. */
module Json {
  import opened Text

  datatype Json =
    | Null
    | Bool(b: bool)
    | Str(s: string)
    | Number(text: string)
    | Array(items: seq<Json>)
    | Object(fields: seq<Field>)

  datatype Field = Field(name: string, value: Json)

  // ---------- printing ----------

  function HexDigit(n: nat): char
    requires n < 16
  {
    if n < 10 then Digit(n) else ('a' as int + (n - 10)) as char
  }

  /** Quotes, backslashes and control characters are escaped, the rest is printed as it is. */
  function EscapeChar(c: char): string {
    if c == '\"' then "\\\""
    else if c == '\\' then "\\\\"
    else if c == 8 as char then "\\b"
    else if c == 12 as char then "\\f"
    else if c == '\n' then "\\n"
    else if c == '\r' then "\\r"
    else if c == '\t' then "\\t"
    else if c < ' ' then "\\u00" + [HexDigit(c as int / 16), HexDigit(c as int % 16)]
    else [c]
  }

  function Escape(s: string): string {
    if s == "" then "" else Escape(s[..|s| - 1]) + EscapeChar(s[|s| - 1])
  }

  function Quote(s: string): string {
    "\"" + Escape(s) + "\""
  }

  function Print(j: Json): string
    decreases j, 1
  {
    match j
    case Null => "null"
    case Bool(b) => if b then "true" else "false"
    case Str(s) => Quote(s)
    case Number(text) => text
    case Array(items) => "[" + PrintItems(items) + "]"
    case Object(fields) => "{" + PrintFields(fields) + "}"
  }

  function Comma(n: nat): string {
    if n > 0 then "," else ""
  }

  function PrintItems(items: seq<Json>): string
    decreases items, 0
  {
    if items == [] then ""
    else
      var front, last := items[..|items| - 1], items[|items| - 1];
      PrintItems(front) + Comma(|front|) + Print(last)
  }

  function PrintFields(fields: seq<Field>): string
    decreases fields, 0
  {
    if fields == [] then ""
    else
      var front, last := fields[..|fields| - 1], fields[|fields| - 1];
      PrintFields(front) + Comma(|front|) + Quote(last.name) + ":" + Print(last.value)
  }

  // ---------- measuring without printing ----------

  /** How many bytes UTF-8 spends on a character. */
  function Width(c: char): nat {
    if c < 0x80 as char then 1 else if c < 0x800 as char then 2 else if c < 0x10000 as char then 3 else 4
  }

  function ByteLength(s: string): nat {
    if s == "" then 0 else Width(s[0]) + ByteLength(s[1..])
  }

  /** What one more character of a string adds to its printed length. */
  function CharSize(c: char): nat {
    if c in {'\"', '\\', 8 as char, 12 as char, '\n', '\r', '\t'} then 2
    else if c < ' ' then 6
    else Width(c)
  }

  function CharsSize(s: string): nat {
    if s == "" then 0 else CharsSize(s[..|s| - 1]) + CharSize(s[|s| - 1])
  }

  function QuotedSize(s: string): nat {
    2 + CharsSize(s)
  }

  function CommaSize(n: nat): nat {
    if n > 0 then 1 else 0
  }

  /** The length in bytes of a printed value, added up over its parts. */
  function Size(j: Json): nat
    decreases j, 1
  {
    match j
    case Null => 4
    case Bool(b) => if b then 4 else 5
    case Str(s) => QuotedSize(s)
    case Number(text) => ByteLength(text)
    case Array(items) => 2 + ItemsSize(items)
    case Object(fields) => 2 + FieldsSize(fields)
  }

  function ItemsSize(items: seq<Json>): nat
    decreases items, 0
  {
    if items == [] then 0
    else
      var front, last := items[..|items| - 1], items[|items| - 1];
      ItemsSize(front) + CommaSize(|front|) + Size(last)
  }

  function FieldsSize(fields: seq<Field>): nat
    decreases fields, 0
  {
    if fields == [] then 0
    else
      var front, last := fields[..|fields| - 1], fields[|fields| - 1];
      FieldsSize(front) + CommaSize(|front|) + QuotedSize(last.name) + 1 + Size(last.value)
  }

  lemma {:induction false} ItemsGrow(items: seq<Json>, j: Json)
    ensures ItemsSize(items + [j]) == ItemsSize(items) + CommaSize(|items|) + Size(j)
  {
    assert (items + [j])[..|items|] == items;
  }

  lemma {:induction false} FieldsGrow(fields: seq<Field>, f: Field)
    ensures FieldsSize(fields + [f]) ==
              FieldsSize(fields) + CommaSize(|fields|) + QuotedSize(f.name) + 1 + Size(f.value)
  {
    assert (fields + [f])[..|fields|] == fields;
  }

  lemma {:induction false} Utf8Length(s: string)
    ensures |Utf8(s)| == ByteLength(s)
  {
    if s != "" {
      Utf8Length(s[1..]);
    }
  }

  lemma {:induction false} LengthAppend(a: string, b: string)
    ensures ByteLength(a + b) == ByteLength(a) + ByteLength(b)
  {
    if a == "" {
      assert a + b == b;
    } else {
      assert (a + b)[1..] == a[1..] + b;
      LengthAppend(a[1..], b);
    }
  }

  lemma {:induction false} AsciiLength(s: string)
    requires IsAscii(s)
    ensures ByteLength(s) == |s|
  {
    if s != "" {
      AsciiLength(s[1..]);
    }
  }

  lemma {:induction false} EscapedCharSize(c: char)
    ensures ByteLength(EscapeChar(c)) == CharSize(c)
  {
    if EscapeChar(c) == [c] {
      assert [c][1..] == "";
    } else {
      AsciiLength(EscapeChar(c));
    }
  }

  lemma {:induction false} EscapedSize(s: string)
    ensures ByteLength(Escape(s)) == CharsSize(s)
  {
    if s != "" {
      EscapedSize(s[..|s| - 1]);
      EscapedCharSize(s[|s| - 1]);
      LengthAppend(Escape(s[..|s| - 1]), EscapeChar(s[|s| - 1]));
    }
  }

  /** Text in brackets, braces or quotes is two bytes longer. */
  lemma {:induction false} EnclosedLength(open: char, text: string, close: char)
    requires open < 128 as char && close < 128 as char
    ensures ByteLength([open] + text + [close]) == 2 + ByteLength(text)
  {
    LengthAppend([open] + text, [close]);
    LengthAppend([open], text);
    AsciiLength([open]);
    AsciiLength([close]);
  }

  lemma {:induction false} QuotedLength(s: string)
    ensures ByteLength(Quote(s)) == QuotedSize(s)
  {
    EnclosedLength('\"', Escape(s), '\"');
    EscapedSize(s);
  }

  lemma {:induction false} CommaLength(n: nat)
    ensures ByteLength(Comma(n)) == CommaSize(n)
  {
    AsciiLength(Comma(n));
  }

  lemma {:induction false} PrintedLength(j: Json)
    ensures ByteLength(Print(j)) == Size(j)
    decreases j, 1
  {
    match j
    case Null => AsciiLength("null");
    case Bool(b) => AsciiLength(if b then "true" else "false");
    case Str(s) => QuotedLength(s);
    case Number(text) =>
    case Array(items) =>
      ItemsLength(items);
      EnclosedLength('[', PrintItems(items), ']');
    case Object(fields) =>
      FieldsLength(fields);
      EnclosedLength('{', PrintFields(fields), '}');
  }

  lemma {:induction false} ItemsLength(items: seq<Json>)
    ensures ByteLength(PrintItems(items)) == ItemsSize(items)
    decreases items, 0
  {
    if items != [] {
      var front, last := items[..|items| - 1], items[|items| - 1];
      ItemsLength(front);
      PrintedLength(last);
      CommaLength(|front|);
      LengthAppend(PrintItems(front) + Comma(|front|), Print(last));
      LengthAppend(PrintItems(front), Comma(|front|));
    }
  }

  lemma {:induction false} FieldLength(before: string, name: string, value: string)
    ensures ByteLength(before + Quote(name) + ":" + value) ==
              ByteLength(before) + QuotedSize(name) + 1 + ByteLength(value)
  {
    QuotedLength(name);
    LengthAppend(before + Quote(name) + ":", value);
    LengthAppend(before + Quote(name), ":");
    LengthAppend(before, Quote(name));
    AsciiLength(":");
  }

  lemma {:induction false} FieldsLength(fields: seq<Field>)
    ensures ByteLength(PrintFields(fields)) == FieldsSize(fields)
    decreases fields, 0
  {
    if fields != [] {
      var front, last := fields[..|fields| - 1], fields[|fields| - 1];
      FieldsLength(front);
      PrintedLength(last.value);
      CommaLength(|front|);
      LengthAppend(PrintFields(front), Comma(|front|));
      FieldLength(PrintFields(front) + Comma(|front|), last.name, Print(last.value));
    }
  }

  /** The size is the number of bytes of the printed text in UTF-8. */
  lemma {:induction false} SizeIsPrintedBytes(j: Json)
    ensures Size(j) == |Utf8(Print(j))|
  {
    PrintedLength(j);
    Utf8Length(Print(j));
  }
}
