/** Text as the source's languages handle it: UTF-8, decimal numbers, and splitting at a separator. */
module Text {
  import opened Wrappers

  type Byte = n: int | 0 <= n < 256

  // ---------- UTF-8 ----------

  /** The encoding of a Unicode scalar value. */
  function Utf8Char(c: char): seq<Byte> {
    var n := c as int;
    if n < 0x80 then [n]
    else if n < 0x800 then [0xC0 + n / 0x40, 0x80 + n % 0x40]
    else if n < 0x10000 then [0xE0 + n / 0x1000, 0x80 + n / 0x40 % 0x40, 0x80 + n % 0x40]
    else [0xF0 + n / 0x40000, 0x80 + n / 0x1000 % 0x40, 0x80 + n / 0x40 % 0x40, 0x80 + n % 0x40]
  }

  function Utf8(s: string): seq<Byte> {
    if s == "" then [] else Utf8Char(s[0]) + Utf8(s[1..])
  }

  /** The length that a first byte announces. */
  function Announced(first: Byte): nat {
    if first < 0x80 then 1 else if first < 0xE0 then 2 else if first < 0xF0 then 3 else 4
  }

  function Payload(b: Byte, marker: int): int {
    b as int - marker
  }

  /** The number spelled by the payload bits of these bytes. */
  function CodeOf(b: seq<Byte>): int {
    if |b| == 1 then b[0]
    else if |b| == 2 then Payload(b[0], 0xC0) * 0x40 + Payload(b[1], 0x80)
    else if |b| == 3 then (Payload(b[0], 0xE0) * 0x40 + Payload(b[1], 0x80)) * 0x40 + Payload(b[2], 0x80)
    else if |b| == 4 then
      ((Payload(b[0], 0xF0) * 0x40 + Payload(b[1], 0x80)) * 0x40 + Payload(b[2], 0x80)) * 0x40 + Payload(b[3], 0x80)
    else -1
  }

  predicate IsScalarValue(n: int) {
    0 <= n < 0xD800 || 0xE000 <= n < 0x110000
  }

  /** Strict decoding: a character is accepted only in the bytes that encode it. */
  function FromUtf8(b: seq<Byte>): Option<string> {
    if b == [] then Some("")
    else
      var n := Announced(b[0]);
      if n > |b| || !IsScalarValue(CodeOf(b[..n])) then None
      else
        var c := CodeOf(b[..n]) as char;
        if Utf8Char(c) != b[..n] then None
        else
          var rest := FromUtf8(b[n..]);
          if rest.Some? then Some([c] + rest.value) else None
  }

  lemma {:induction false} CodeOfTwo(n: int)
    requires 0x80 <= n < 0x800
    ensures n / 0x40 < 0x20 && CodeOf([0xC0 + n / 0x40, 0x80 + n % 0x40]) == n
  {
  }

  lemma {:induction false} CodeOfThree(n: int)
    requires 0x800 <= n < 0x10000
    ensures n / 0x1000 < 0x10 && CodeOf([0xE0 + n / 0x1000, 0x80 + n / 0x40 % 0x40, 0x80 + n % 0x40]) == n
  {
    var m := n / 0x40;
    assert n == m * 0x40 + n % 0x40 && m / 0x40 == n / 0x1000;
    assert m == m / 0x40 * 0x40 + m % 0x40;
  }

  lemma {:induction false} CodeOfFour(n: int)
    requires 0x10000 <= n < 0x110000
    ensures n / 0x40000 < 5
    ensures CodeOf([0xF0 + n / 0x40000, 0x80 + n / 0x1000 % 0x40, 0x80 + n / 0x40 % 0x40, 0x80 + n % 0x40]) == n
  {
    var m := n / 0x40;
    var l := m / 0x40;
    assert n == m * 0x40 + n % 0x40 && l == n / 0x1000 && l / 0x40 == n / 0x40000;
    assert m == l * 0x40 + m % 0x40;
    assert l == l / 0x40 * 0x40 + l % 0x40;
  }

  lemma {:induction false} CharRoundTrip(c: char)
    ensures |Utf8Char(c)| > 0 && Announced(Utf8Char(c)[0]) == |Utf8Char(c)| && CodeOf(Utf8Char(c)) == c as int
  {
    var n := c as int;
    if 0x80 <= n < 0x800 {
      CodeOfTwo(n);
    } else if 0x800 <= n < 0x10000 {
      CodeOfThree(n);
    } else if 0x10000 <= n {
      CodeOfFour(n);
    }
  }

  /** Decoding gives back every text. */
  lemma {:induction false} Utf8RoundTrip(s: string)
    ensures FromUtf8(Utf8(s)) == Some(s)
  {
    if s != "" {
      var first, rest := Utf8Char(s[0]), Utf8(s[1..]);
      CharRoundTrip(s[0]);
      assert (first + rest)[..|first|] == first && (first + rest)[|first|..] == rest;
      Utf8RoundTrip(s[1..]);
      assert [s[0]] + s[1..] == s;
    }
  }

  lemma {:induction false} FirstDecoded(b: seq<Byte>) returns (c: char, n: nat)
    requires b != [] && FromUtf8(b).Some?
    ensures 0 < n <= |b| && Utf8Char(c) == b[..n] && FromUtf8(b[n..]).Some?
    ensures FromUtf8(b).value == [c] + FromUtf8(b[n..]).value
  {
    n := Announced(b[0]);
    c := CodeOf(b[..n]) as char;
  }

  lemma {:induction false} FirstEncoded(c: char, rest: string)
    ensures Utf8([c] + rest) == Utf8Char(c) + Utf8(rest)
  {
    assert ([c] + rest)[1..] == rest;
  }

  lemma {:induction false} EncodedInTwo(b: seq<Byte>, c: char, n: nat, rest: string)
    requires n <= |b| && Utf8Char(c) == b[..n] && Utf8(rest) == b[n..]
    ensures Utf8([c] + rest) == b
  {
    FirstEncoded(c, rest);
    assert b[..n] + b[n..] == b;
  }

  /** Decoding is strict: the only bytes that decode to a text are those that encode it. */
  lemma {:induction false} FromUtf8IsStrict(b: seq<Byte>)
    requires FromUtf8(b).Some?
    ensures Utf8(FromUtf8(b).value) == b
    decreases |b|
  {
    if b != [] {
      var c, n := FirstDecoded(b);
      FromUtf8IsStrict(b[n..]);
      EncodedInTwo(b, c, n, FromUtf8(b[n..]).value);
    }
  }

  predicate Continues(b: Byte) {
    0x80 <= b < 0xC0
  }

  /** The bits of a byte below those that mark its place. */
  function Low(b: Byte, marker: Byte): int {
    b as int - marker as int
  }

  /** The bytes of a character are those of the table in section 3 of RFC 3629, and no more than needed. */
  lemma {:induction false} Utf8ByTable(c: char)
    ensures var b, n := Utf8Char(c), c as int;
            if n <= 0x7F then b == [n]
            else if n <= 0x7FF then
              |b| == 2 && 0xC0 <= b[0] < 0xE0 && Continues(b[1]) && n == Low(b[0], 0xC0) * 64 + Low(b[1], 0x80)
            else if n <= 0xFFFF then
              && |b| == 3 && 0xE0 <= b[0] < 0xF0 && Continues(b[1]) && Continues(b[2])
              && n == Low(b[0], 0xE0) * 4096 + Low(b[1], 0x80) * 64 + Low(b[2], 0x80)
            else
              && |b| == 4 && 0xF0 <= b[0] < 0xF8 && Continues(b[1]) && Continues(b[2]) && Continues(b[3])
              && n == Low(b[0], 0xF0) * 262144 + Low(b[1], 0x80) * 4096 + Low(b[2], 0x80) * 64 + Low(b[3], 0x80)
  {
    var n := c as int;
    CharRoundTrip(c);
    if 0x80 <= n < 0x800 {
      CodeOfTwo(n);
    } else if 0x800 <= n < 0x10000 {
      CodeOfThree(n);
    } else if 0x10000 <= n {
      CodeOfFour(n);
    }
  }

  // ---------- numbers ----------

  function Digit(n: nat): char
    requires n < 10
  {
    ('0' as int + n) as char
  }

  function Digits(n: nat): string {
    if n < 10 then [Digit(n)] else Digits(n / 10) + [Digit(n % 10)]
  }

  function Decimal(n: int): string {
    if n < 0 then "-" + Digits(-n) else Digits(n)
  }

  predicate IsAscii(s: string) {
    forall i :: 0 <= i < |s| ==> s[i] < 128 as char
  }

  type Ascii = s: string | IsAscii(s) witness ""

  predicate IsDigit(c: char) {
    '0' <= c <= '9'
  }

  /** The characters that the numbers of JSON are made of. */
  predicate IsNumeric(c: char) {
    IsDigit(c) || c in {'+', '-', '.', 'e', 'E'}
  }

  predicate IsNumeral(s: string) {
    s != "" && forall i :: 0 <= i < |s| ==> IsNumeric(s[i])
  }

  type Numeral = s: string | IsNumeral(s) witness "0"

  predicate IsNumber(s: string) {
    s != "" && forall i :: 0 <= i < |s| ==> IsDigit(s[i])
  }

  function ParseNat(s: string): nat
    requires IsNumber(s)
  {
    var last := s[|s| - 1] as int - '0' as int;
    if |s| == 1 then last else ParseNat(s[..|s| - 1]) * 10 + last
  }

  lemma {:induction false} DigitsAreDigits(n: nat)
    ensures IsNumber(Digits(n))
  {
    if n >= 10 {
      DigitsAreDigits(n / 10);
    }
  }

  lemma {:induction false} DecimalIsAscii(n: int)
    ensures IsAscii(Decimal(n))
  {
    DigitsAreDigits(if n < 0 then -n else n);
    assert forall i :: 0 <= i < |Decimal(n)| && !(n < 0 && i == 0) ==> IsDigit(Decimal(n)[i]);
  }

  /** Parsing gives back every number. */
  lemma {:induction false} NumberRoundTrip(n: nat)
    ensures IsNumber(Digits(n)) && ParseNat(Digits(n)) == n
  {
    DigitsAreDigits(n);
    if n >= 10 {
      NumberRoundTrip(n / 10);
      assert Digits(n)[..|Digits(n)| - 1] == Digits(n / 10);
    }
  }

  predicate HasNoLeadingZero(s: string) {
    |s| == 1 || (s != "" && s[0] != '0')
  }

  lemma {:induction false} DigitsHaveNoLeadingZero(n: nat)
    ensures Digits(n) != "" && (n > 0 ==> Digits(n)[0] != '0') && HasNoLeadingZero(Digits(n))
  {
    if n >= 10 {
      DigitsHaveNoLeadingZero(n / 10);
    }
  }

  lemma {:induction false} LeadingDigitCounts(s: string)
    requires IsNumber(s) && s[0] != '0'
    ensures ParseNat(s) > 0
  {
    if |s| > 1 {
      LeadingDigitCounts(s[..|s| - 1]);
    }
  }

  /** Printing a parsed number gives back its digits exactly when they have no leading zero. */
  lemma {:induction false} PrintedExactlyWhen(s: string)
    requires IsNumber(s)
    ensures Digits(ParseNat(s)) == s <==> HasNoLeadingZero(s)
  {
    DigitsHaveNoLeadingZero(ParseNat(s));
    if |s| > 1 && s[0] != '0' {
      var front := s[..|s| - 1];
      PrintedExactlyWhen(front);
      LeadingDigitCounts(front);
      assert ParseNat(s) / 10 == ParseNat(front);
      assert front + [s[|s| - 1]] == s;
    }
  }

  // ---------- splitting ----------

  /** The parts between separators; a text without one is its only part. */
  function Split(s: string, separator: char): (parts: seq<string>)
    ensures |parts| > 0
  {
    if s == "" then [""]
    else
      var rest := Split(s[1..], separator);
      if s[0] == separator then [""] + rest else [[s[0]] + rest[0]] + rest[1..]
  }

  /** A stretch between separators, or the ends of the text, without a separator inside. */
  ghost predicate IsStretch(s: string, separator: char, i: int, j: int) {
    && 0 <= i <= j <= |s| && (i == 0 || s[i - 1] == separator) && (j == |s| || s[j] == separator)
    && forall k :: i <= k < j ==> s[k] != separator
  }

  lemma {:induction false} StretchShifts(s: string, separator: char, i: int, j: int)
    requires s != "" && 0 <= i <= j < |s|
    ensures IsStretch(s, separator, i + 1, j + 1) <==>
              IsStretch(s[1..], separator, i, j) && (i > 0 || s[0] == separator)
    ensures s[i + 1..j + 1] == s[1..][i..j]
  {
    if IsStretch(s, separator, i + 1, j + 1) {
      forall k | i <= k < j ensures s[1..][k] != separator {
        assert s[1..][k] == s[k + 1];
      }
    }
    if IsStretch(s[1..], separator, i, j) && (i > 0 || s[0] == separator) {
      forall k | i + 1 <= k < j + 1 ensures s[k] != separator {
        assert s[k] == s[1..][k - 1];
      }
    }
  }

  lemma {:induction false} FirstStretch(s: string, separator: char) returns (j: int)
    ensures IsStretch(s, separator, 0, j) && Split(s, separator)[0] == s[..j]
  {
    j := 0;
    if s != "" && s[0] != separator {
      j := FirstStretch(s[1..], separator);
      j := j + 1;
      assert s[..j] == [s[0]] + s[1..][..j - 1];
      forall k | 0 <= k < j ensures s[k] != separator {
        assert k > 0 ==> s[k] == s[1..][k - 1];
      }
    }
  }

  ghost predicate HasStretch(s: string, separator: char, from: int, part: string) {
    exists i, j :: from <= i && IsStretch(s, separator, i, j) && s[i..j] == part
  }

  lemma {:induction false} StretchesShift(s: string, separator: char, from: int, part: string)
    requires s != "" && from == (if s[0] == separator then 0 else 1)
    ensures HasStretch(s, separator, 1, part) <==> HasStretch(s[1..], separator, from, part)
  {
    if HasStretch(s, separator, 1, part) {
      var i, j :| 1 <= i && IsStretch(s, separator, i, j) && s[i..j] == part;
      StretchShifts(s, separator, i - 1, j - 1);
      assert from <= i - 1 && IsStretch(s[1..], separator, i - 1, j - 1);
    }
    if HasStretch(s[1..], separator, from, part) {
      var i, j :| from <= i && IsStretch(s[1..], separator, i, j) && s[1..][i..j] == part;
      StretchShifts(s, separator, i, j);
      assert 1 <= i + 1 && IsStretch(s, separator, i + 1, j + 1);
    }
  }

  lemma {:induction false} FirstIsFirst(s: string, separator: char, part: string)
    ensures HasStretch(s, separator, 0, part) <==>
              Split(s, separator)[0] == part || HasStretch(s, separator, 1, part)
  {
    var j := FirstStretch(s, separator);
    if k :| IsStretch(s, separator, 0, k) && s[0..k] == part {
      assert k == j;
    }
  }

  lemma {:induction false} LaterStretches(s: string, separator: char, part: string)
    ensures part in Split(s, separator)[1..] <==> HasStretch(s, separator, 1, part)
  {
    if s != "" {
      var rest := Split(s[1..], separator);
      LaterStretches(s[1..], separator, part);
      StretchesShift(s, separator, if s[0] == separator then 0 else 1, part);
      if s[0] == separator {
        FirstIsFirst(s[1..], separator, part);
        assert rest == [rest[0]] + rest[1..];
      }
    }
  }

  /** Splitting gives exactly the stretches between separators. */
  lemma {:induction false} PartsAreStretches(s: string, separator: char, part: string)
    ensures part in Split(s, separator) <==> HasStretch(s, separator, 0, part)
  {
    LaterStretches(s, separator, part);
    FirstIsFirst(s, separator, part);
    var parts := Split(s, separator);
    assert parts == [parts[0]] + parts[1..];
  }

  function Join(parts: seq<string>, separator: char): string {
    if parts == [] then ""
    else if |parts| == 1 then parts[0]
    else parts[0] + [separator] + Join(parts[1..], separator)
  }

  predicate Avoids(s: string, separator: char) {
    forall i :: 0 <= i < |s| ==> s[i] != separator
  }

  lemma {:induction false} SplitWord(word: string, separator: char)
    requires Avoids(word, separator)
    ensures Split(word, separator) == [word]
  {
    if word != "" {
      SplitWord(word[1..], separator);
      assert [word[0]] + word[1..] == word;
    }
  }

  lemma {:induction false} SplitAfterWord(word: string, rest: string, separator: char)
    requires Avoids(word, separator)
    ensures Split(word + [separator] + rest, separator) == [word] + Split(rest, separator)
  {
    var s := word + [separator] + rest;
    if word == "" {
      assert s[1..] == rest;
    } else {
      assert s[1..] == word[1..] + [separator] + rest;
      SplitAfterWord(word[1..], rest, separator);
      assert [word[0]] + word[1..] == word;
    }
  }

  /** Splitting undoes joining when no part contains the separator. */
  lemma {:induction false} SplitUndoesJoin(parts: seq<string>, separator: char)
    requires parts != [] && forall i :: 0 <= i < |parts| ==> Avoids(parts[i], separator)
    ensures Split(Join(parts, separator), separator) == parts
  {
    if |parts| == 1 {
      SplitWord(parts[0], separator);
    } else {
      SplitUndoesJoin(parts[1..], separator);
      SplitAfterWord(parts[0], Join(parts[1..], separator), separator);
      assert [parts[0]] + parts[1..] == parts;
    }
  }

  /** Joining undoes splitting, always. */
  lemma {:induction false} JoinUndoesSplit(s: string, separator: char)
    ensures Join(Split(s, separator), separator) == s
  {
    if s != "" {
      var rest := Split(s[1..], separator);
      JoinUndoesSplit(s[1..], separator);
      if s[0] == separator {
        assert ([""] + rest)[1..] == rest;
      } else {
        assert ([[s[0]] + rest[0]] + rest[1..])[1..] == rest[1..];
      }
      assert [s[0]] + s[1..] == s;
    }
  }
}
