/**
 JSON text read back, by the grammar of RFC 8259 without its optional white space. Numbers are read as the
 longest run of the characters numbers are made of.
 */
module JsonReading {
  import opened Wrappers
  import opened Text
  import opened Json

  /** What was read, and the text that follows it. */
  type Read<T> = Option<(T, string)>

  // ---------- strings ----------

  function HexValue(c: char): Option<nat> {
    if IsDigit(c) then Some(c as int - '0' as int)
    else if 'a' <= c <= 'f' then Some(10 + c as int - 'a' as int)
    else if 'A' <= c <= 'F' then Some(10 + c as int - 'A' as int)
    else None
  }

  /** The number that hexadecimal digits spell. */
  function HexNumber(s: string): Option<nat> {
    if s == "" then Some(0)
    else
      var front, last := HexNumber(s[..|s| - 1]), HexValue(s[|s| - 1]);
      if front.Some? && last.Some? then Some(front.value * 16 + last.value) else None
  }

  /** What follows the backslash of an escape; surrogates are not characters. */
  function ReadEscape(s: string): (r: Read<char>)
    ensures r.Some? ==> |r.value.1| < |s|
  {
    if s == "" then None
    else if s[0] == 'u' then
      if |s| < 5 then None
      else
        var code := HexNumber(s[1..5]);
        if code.Some? && IsScalarValue(code.value) then Some((code.value as char, s[5..])) else None
    else
      match s[0]
      case '\"' => Some(('\"', s[1..]))
      case '\\' => Some(('\\', s[1..]))
      case '/' => Some(('/', s[1..]))
      case 'b' => Some((8 as char, s[1..]))
      case 'f' => Some((12 as char, s[1..]))
      case 'n' => Some((10 as char, s[1..]))
      case 'r' => Some((13 as char, s[1..]))
      case 't' => Some((9 as char, s[1..]))
      case _ => None
  }

  /** The characters of a string after its opening quote, up to the closing one. */
  function ReadChars(s: string): (r: Read<string>)
    ensures r.Some? ==> |r.value.1| < |s|
    decreases |s|
  {
    if s == "" || s[0] < ' ' then None
    else if s[0] == '\"' then Some(("", s[1..]))
    else
      var first := if s[0] == '\\' then ReadEscape(s[1..]) else Some((s[0], s[1..]));
      if first.None? then None
      else
        var more := ReadChars(first.value.1);
        if more.None? then None else Some(([first.value.0] + more.value.0, more.value.1))
  }

  lemma {:induction false} ControlEscape(n: nat)
    requires n < 32
    ensures HexNumber("00" + [HexDigit(n / 16), HexDigit(n % 16)]) == Some(n)
  {
    var high, low := HexDigit(n / 16), HexDigit(n % 16);
    assert HexValue(high) == Some(n / 16) && HexValue(low) == Some(n % 16);
    var s := "00" + [high, low];
    assert s[..3] == "00" + [high] && s[..3][..2] == "00" && "00"[..1] == "0" && "0"[..0] == "";
    assert HexNumber("00") == Some(0);
    assert HexNumber(s[..3]) == Some(n / 16);
  }

  /** One escaped character is read as itself, before whatever follows. */
  lemma {:induction false} CharReadsBack(c: char, rest: string)
    requires ReadChars(rest).Some?
    ensures ReadChars(EscapeChar(c) + rest) == Some(([c] + ReadChars(rest).value.0, ReadChars(rest).value.1))
  {
    var e := EscapeChar(c);
    var s := e + rest;
    if |e| == 1 {
      assert s[1..] == rest;
    } else if |e| == 2 {
      assert s[1..] == e[1..] + rest && s[1..][1..] == rest;
    } else {
      ControlEscape(c as int);
      assert s[1..] == e[1..] + rest && s[1..][1..5] == e[2..] && s[1..][5..] == rest;
      assert e[2..] == "00" + [HexDigit(c as int / 16), HexDigit(c as int % 16)];
    }
  }

  lemma {:induction false} Regroup(a: string, b: string, c: string)
    ensures (a + b) + c == a + (b + c)
  {
  }

  lemma {:induction false} AroundEmpty(a: string)
    ensures "" + a == a == a + ""
  {
  }

  lemma {:induction false} EscapeLast(t: string, c: char)
    ensures Escape(t + [c]) == Escape(t) + EscapeChar(c)
  {
    assert (t + [c])[..|t|] == t;
  }

  lemma {:induction false} EscapeFirst(c: char, t: string)
    ensures Escape([c] + t) == EscapeChar(c) + Escape(t)
  {
    if t == "" {
      EscapeLast("", c);
      assert "" + [c] == [c] + t;
      AroundEmpty(EscapeChar(c));
    } else {
      var front, last := t[..|t| - 1], t[|t| - 1];
      assert front + [last] == t && ([c] + front) + [last] == [c] + t;
      EscapeFirst(c, front);
      EscapeLast([c] + front, last);
      EscapeLast(front, last);
      Regroup(EscapeChar(c), Escape(front), EscapeChar(last));
    }
  }

  /** A printed string after its opening quote. */
  function Closing(t: string, rest: string): string {
    Escape(t) + "\"" + rest
  }

  lemma {:induction false} ClosingFirst(c: char, t: string, rest: string)
    ensures Closing([c] + t, rest) == EscapeChar(c) + Closing(t, rest)
  {
    EscapeFirst(c, t);
    Regroup(EscapeChar(c), Escape(t), "\"");
    Regroup(EscapeChar(c), Escape(t) + "\"", rest);
  }

  lemma {:induction false} CharsReadBack(t: string, rest: string)
    ensures ReadChars(Closing(t, rest)) == Some((t, rest))
  {
    if t == "" {
      assert Closing(t, rest) == "\"" + rest && ("\"" + rest)[1..] == rest;
    } else {
      CharsReadBack(t[1..], rest);
      assert [t[0]] + t[1..] == t;
      ClosingFirst(t[0], t[1..], rest);
      CharReadsBack(t[0], Closing(t[1..], rest));
    }
  }

  // ---------- values ----------

  function ReadNumeral(s: string): (r: (string, string))
    ensures |r.0| + |r.1| == |s|
  {
    if s == "" || !IsNumeric(s[0]) then ("", s)
    else
      var (more, rest) := ReadNumeral(s[1..]);
      ([s[0]] + more, rest)
  }

  predicate Begins(s: string, c: char) {
    s != "" && s[0] == c
  }

  function ReadValue(s: string): (r: Read<Json>)
    ensures r.Some? ==> |r.value.1| < |s|
    decreases |s|, 0
  {
    if "null" <= s then Some((Null, s[4..]))
    else if "true" <= s then Some((Bool(true), s[4..]))
    else if "false" <= s then Some((Bool(false), s[5..]))
    else if Begins(s, '\"') then
      var text := ReadChars(s[1..]);
      if text.Some? then Some((Str(text.value.0), text.value.1)) else None
    else if Begins(s, '[') then
      if Begins(s[1..], ']') then Some((Array([]), s[2..]))
      else
        var items := ReadItems(s[1..]);
        if items.Some? then Some((Array(items.value.0), items.value.1)) else None
    else if Begins(s, '{') then
      if Begins(s[1..], '}') then Some((Object([]), s[2..]))
      else
        var fields := ReadFields(s[1..]);
        if fields.Some? then Some((Object(fields.value.0), fields.value.1)) else None
    else
      var (text, rest) := ReadNumeral(s);
      if text != "" then Some((Number(text), rest)) else None
  }

  /** Items separated by commas, and the closing bracket. */
  function ReadItems(s: string): (r: Read<seq<Json>>)
    ensures r.Some? ==> |r.value.1| < |s|
    decreases |s|, 1
  {
    var first := ReadValue(s);
    if first.None? then None
    else
      var (item, rest) := first.value;
      if Begins(rest, ']') then Some(([item], rest[1..]))
      else if Begins(rest, ',') then
        var more := ReadItems(rest[1..]);
        if more.Some? then Some(([item] + more.value.0, more.value.1)) else None
      else None
  }

  /** A quoted name, a colon and a value. */
  function ReadField(s: string): (r: Read<Field>)
    ensures r.Some? ==> |r.value.1| < |s|
    decreases |s|, 1
  {
    if !Begins(s, '\"') then None
    else
      var name := ReadChars(s[1..]);
      if name.None? || !Begins(name.value.1, ':') then None
      else
        var value := ReadValue(name.value.1[1..]);
        if value.Some? then Some((Field(name.value.0, value.value.0), value.value.1)) else None
  }

  /** Fields separated by commas, and the closing brace. */
  function ReadFields(s: string): (r: Read<seq<Field>>)
    ensures r.Some? ==> |r.value.1| < |s|
    decreases |s|, 2
  {
    var first := ReadField(s);
    if first.None? then None
    else
      var (field, rest) := first.value;
      if Begins(rest, '}') then Some(([field], rest[1..]))
      else if Begins(rest, ',') then
        var more := ReadFields(rest[1..]);
        if more.Some? then Some(([field] + more.value.0, more.value.1)) else None
      else None
  }

  /** A text that is one JSON value. */
  function ReadJson(s: string): Option<Json> {
    match ReadValue(s)
    case Some((j, "")) => Some(j)
    case _ => None
  }

  // ---------- printing is read back ----------

  /** Every number inside is written in the characters of numbers. */
  ghost predicate HasNumerals(j: Json) {
    match j
    case Number(text) => IsNumeral(text)
    case Array(items) => forall i :: 0 <= i < |items| ==> HasNumerals(items[i])
    case Object(fields) => forall i :: 0 <= i < |fields| ==> HasNumerals(fields[i].value)
    case _ => true
  }

  /** No number goes on here. */
  predicate Stops(rest: string) {
    rest == "" || !IsNumeric(rest[0])
  }

  lemma {:induction false} NumeralReadsBack(text: string, rest: string)
    requires (forall i :: 0 <= i < |text| ==> IsNumeric(text[i])) && Stops(rest)
    ensures ReadNumeral(text + rest) == (text, rest)
  {
    if text == "" {
      assert text + rest == rest;
    } else {
      NumeralReadsBack(text[1..], rest);
      assert (text + rest)[1..] == text[1..] + rest && (text + rest)[0] == text[0];
      assert [text[0]] + text[1..] == text;
    }
  }

  /** Parts in a row, whether the first of them stands alone or not. */
  lemma {:induction false} PartsRegroup(first: string, front: string, last: string, alone: bool)
    requires alone ==> front == ""
    ensures (first + if alone then "" else "," + front) + "," + last ==
              first + ("," + (front + (if alone then "" else ",") + last))
  {
    assert (first + "," + front) + "," + last == first + ("," + (front + "," + last));
    assert first + "" + "," + last == first + ("," + ("" + "" + last));
  }

  lemma {:induction false} ItemsLast(items: seq<Json>, item: Json)
    ensures PrintItems(items + [item]) == PrintItems(items) + Comma(|items|) + Print(item)
  {
    assert (items + [item])[..|items|] == items;
  }

  lemma {:induction false} ItemsFirst(item: Json, items: seq<Json>)
    ensures PrintItems([item] + items) == Print(item) + if items == [] then "" else "," + PrintItems(items)
  {
    if items == [] {
      ItemsLast([], item);
      assert [] + [item] == [item] + items;
      AroundEmpty(Print(item));
      assert "" + Comma(0) == "";
    } else {
      var front, last := items[..|items| - 1], items[|items| - 1];
      assert front + [last] == items && ([item] + front) + [last] == [item] + items;
      ItemsFirst(item, front);
      ItemsLast([item] + front, last);
      ItemsLast(front, last);
      PartsRegroup(Print(item), PrintItems(front), Print(last), front == []);
    }
  }

  function PrintField(f: Field): string {
    Quote(f.name) + ":" + Print(f.value)
  }

  lemma {:induction false} FieldsLast(fields: seq<Field>, f: Field)
    ensures PrintFields(fields + [f]) == PrintFields(fields) + Comma(|fields|) + PrintField(f)
  {
    assert (fields + [f])[..|fields|] == fields;
    var before := PrintFields(fields) + Comma(|fields|);
    assert before + Quote(f.name) + ":" + Print(f.value) == before + (Quote(f.name) + ":" + Print(f.value));
  }

  lemma {:induction false} FieldsFirst(f: Field, fields: seq<Field>)
    ensures PrintFields([f] + fields) == PrintField(f) + if fields == [] then "" else "," + PrintFields(fields)
  {
    if fields == [] {
      FieldsLast([], f);
      assert [] + [f] == [f] + fields;
      AroundEmpty(PrintField(f));
      assert "" + Comma(0) == "";
    } else {
      var front, last := fields[..|fields| - 1], fields[|fields| - 1];
      assert front + [last] == fields && ([f] + front) + [last] == [f] + fields;
      FieldsFirst(f, front);
      FieldsLast([f] + front, last);
      FieldsLast(front, last);
      PartsRegroup(PrintField(f), PrintFields(front), PrintField(last), front == []);
    }
  }

  lemma {:induction false} PrintBegins(j: Json)
    requires HasNumerals(j)
    ensures Print(j) != "" && Print(j)[0] != ']'
  {
  }

  lemma {:induction false} TextReadsBack(t: string, rest: string)
    ensures ReadValue(Quote(t) + rest) == Some((Str(t), rest))
  {
    CharsReadBack(t, rest);
    var s := Quote(t) + rest;
    assert s[0] == '\"' && s[1..] == Closing(t, rest);
  }

  lemma {:induction false} NumberReadsBack(text: string, rest: string)
    requires IsNumeral(text) && Stops(rest)
    ensures ReadValue(text + rest) == Some((Number(text), rest))
  {
    NumeralReadsBack(text, rest);
    assert (text + rest)[0] == text[0] && IsNumeric(text[0]);
  }

  lemma {:induction false} WordReadsBack(j: Json, rest: string)
    requires j.Null? || j.Bool?
    ensures ReadValue(Print(j) + rest) == Some((j, rest))
  {
    var s, n := Print(j) + rest, |Print(j)|;
    assert s[..n] == Print(j) && s[n..] == rest;
    assert n > 0 && s[0] == Print(j)[0];
  }

  /** An array whose items are read after its bracket. */
  lemma {:induction false} ReadArray(inner: string, items: seq<Json>, rest: string)
    requires !Begins(inner, ']') && ReadItems(inner) == Some((items, rest))
    ensures ReadValue("[" + inner) == Some((Array(items), rest))
  {
    var s := "[" + inner;
    assert s[0] == '[' && s[1..] == inner;
  }

  lemma {:induction false} ReadObject(inner: string, fields: seq<Field>, rest: string)
    requires !Begins(inner, '}') && ReadFields(inner) == Some((fields, rest))
    ensures ReadValue("{" + inner) == Some((Object(fields), rest))
  {
    var s := "{" + inner;
    assert s[0] == '{' && s[1..] == inner;
  }

  lemma {:induction false} ReadEmpty(rest: string)
    ensures ReadValue("[]" + rest) == Some((Array([]), rest)) && ReadValue("{}" + rest) == Some((Object([]), rest))
  {
    var s, t := "[]" + rest, "{}" + rest;
    assert s[0] == '[' && s[1..][0] == ']' && s[2..] == rest;
    assert t[0] == '{' && t[1..][0] == '}' && t[2..] == rest;
  }

  /** One item, then the closing bracket or a comma and the other items. */
  lemma {:induction false} ReadMoreItems(s: string, item: Json, after: string, more: seq<Json>, rest: string)
    requires ReadValue(s) == Some((item, after))
    requires if more == [] then after == "]" + rest
             else Begins(after, ',') && ReadItems(after[1..]) == Some((more, rest))
    ensures ReadItems(s) == Some(([item] + more, rest))
  {
    if more == [] {
      assert after[1..] == rest && [item] + more == [item];
    }
  }

  lemma {:induction false} ReadMoreFields(s: string, f: Field, after: string, more: seq<Field>, rest: string)
    requires ReadField(s) == Some((f, after))
    requires if more == [] then after == "}" + rest
             else Begins(after, ',') && ReadFields(after[1..]) == Some((more, rest))
    ensures ReadFields(s) == Some(([f] + more, rest))
  {
    if more == [] {
      assert after[1..] == rest && [f] + more == [f];
    }
  }

  lemma {:induction false} ReadNamed(name: string, value: string, f: Field, rest: string)
    requires f.name == name && ReadValue(value) == Some((f.value, rest))
    ensures ReadField(Quote(name) + ":" + value) == Some((f, rest))
  {
    CharsReadBack(name, ":" + value);
    var s := Quote(name) + ":" + value;
    assert s[0] == '\"' && s[1..] == Closing(name, ":" + value);
    assert (":" + value)[1..] == value;
  }

  /** What follows the first of some parts. */
  function Following(parts: string, none: bool, close: string, rest: string): string {
    (if none then "" else "," + parts) + close + rest
  }

  lemma {:induction false} FollowingBegins(parts: string, close: string, rest: string)
    ensures Begins(Following(parts, false, close, rest), ',')
    ensures Following(parts, false, close, rest)[1..] == parts + close + rest
    ensures Following(parts, true, close, rest) == close + rest
  {
  }

  lemma {:induction false} Enclosed(open: string, parts: string, close: string, rest: string)
    ensures open + parts + close + rest == open + (parts + close + rest)
    ensures parts == "" ==> open + parts + close + rest == open + close + rest
  {
  }

  lemma {:induction false} ItemsThen(item: Json, more: seq<Json>, rest: string)
    ensures PrintItems([item] + more) + "]" + rest ==
              Print(item) + Following(PrintItems(more), more == [], "]", rest)
  {
    ItemsFirst(item, more);
  }

  lemma {:induction false} ItemsBegin(item: Json, more: seq<Json>, rest: string)
    requires HasNumerals(item)
    ensures !Begins(PrintItems([item] + more) + "]" + rest, ']')
  {
    PrintBegins(item);
    ItemsThen(item, more, rest);
    assert (Print(item) + Following(PrintItems(more), more == [], "]", rest))[0] == Print(item)[0];
  }

  lemma {:induction false} ValueReadsBack(j: Json, rest: string)
    requires HasNumerals(j) && Stops(rest)
    ensures ReadValue(Print(j) + rest) == Some((j, rest))
    decreases j, 1
  {
    match j
    case Null => WordReadsBack(j, rest);
    case Bool(_) => WordReadsBack(j, rest);
    case Str(t) => TextReadsBack(t, rest);
    case Number(text) => NumberReadsBack(text, rest);
    case Array(items) => ArrayReadsBack(items, rest);
    case Object(fields) => ObjectReadsBack(fields, rest);
  }

  lemma {:induction false} ArrayReadsBack(items: seq<Json>, rest: string)
    requires forall i :: 0 <= i < |items| ==> HasNumerals(items[i])
    ensures ReadValue("[" + PrintItems(items) + "]" + rest) == Some((Array(items), rest))
    decreases items, 1
  {
    Enclosed("[", PrintItems(items), "]", rest);
    if items == [] {
      ReadEmpty(rest);
    } else {
      ItemsReadBack(items, rest);
      assert [items[0]] + items[1..] == items;
      ItemsBegin(items[0], items[1..], rest);
      ReadArray(PrintItems(items) + "]" + rest, items, rest);
    }
  }

  lemma {:induction false} ItemsReadBack(items: seq<Json>, rest: string)
    requires items != [] && forall i :: 0 <= i < |items| ==> HasNumerals(items[i])
    ensures ReadItems(PrintItems(items) + "]" + rest) == Some((items, rest))
    decreases items, 0
  {
    var item, more := items[0], items[1..];
    assert [item] + more == items;
    ItemsThen(item, more, rest);
    var after := Following(PrintItems(more), more == [], "]", rest);
    FollowingBegins(PrintItems(more), "]", rest);
    ValueReadsBack(item, after);
    if more != [] {
      ItemsReadBack(more, rest);
    }
    ReadMoreItems(Print(item) + after, item, after, more, rest);
  }

  lemma {:induction false} ObjectReadsBack(fields: seq<Field>, rest: string)
    requires forall i :: 0 <= i < |fields| ==> HasNumerals(fields[i].value)
    ensures ReadValue("{" + PrintFields(fields) + "}" + rest) == Some((Object(fields), rest))
    decreases fields, 2
  {
    Enclosed("{", PrintFields(fields), "}", rest);
    if fields == [] {
      ReadEmpty(rest);
    } else {
      FieldsReadBack(fields, rest);
      assert [fields[0]] + fields[1..] == fields;
      FieldsThen(fields[0], fields[1..], rest);
      ReadObject(PrintFields(fields) + "}" + rest, fields, rest);
    }
  }

  lemma {:induction false} FieldThen(f: Field, rest: string)
    ensures PrintField(f) + rest == Quote(f.name) + ":" + (Print(f.value) + rest)
  {
  }

  lemma {:induction false} FieldsThen(f: Field, more: seq<Field>, rest: string)
    ensures PrintFields([f] + more) + "}" + rest == PrintField(f) + Following(PrintFields(more), more == [], "}", rest)
  {
    FieldsFirst(f, more);
  }

  lemma {:induction false} FieldReadsBack(f: Field, rest: string)
    requires HasNumerals(f.value) && Stops(rest)
    ensures ReadField(PrintField(f) + rest) == Some((f, rest))
    decreases f, 2
  {
    ValueReadsBack(f.value, rest);
    FieldThen(f, rest);
    ReadNamed(f.name, Print(f.value) + rest, f, rest);
  }

  lemma {:induction false} FieldsReadBack(fields: seq<Field>, rest: string)
    requires fields != [] && forall i :: 0 <= i < |fields| ==> HasNumerals(fields[i].value)
    ensures ReadFields(PrintFields(fields) + "}" + rest) == Some((fields, rest))
    decreases fields, 1
  {
    var f, more := fields[0], fields[1..];
    assert [f] + more == fields;
    FieldsThen(f, more, rest);
    var after := Following(PrintFields(more), more == [], "}", rest);
    FollowingBegins(PrintFields(more), "}", rest);
    FieldReadsBack(f, after);
    if more != [] {
      FieldsReadBack(more, rest);
    }
    ReadMoreFields(PrintField(f) + after, f, after, more, rest);
  }

  /** What is printed is read back as itself, whatever characters its strings and names are made of. */
  lemma {:induction false} PrintReadsBack(j: Json)
    requires HasNumerals(j)
    ensures ReadJson(Print(j)) == Some(j)
  {
    ValueReadsBack(j, "");
    assert Print(j) + "" == Print(j);
  }
}
