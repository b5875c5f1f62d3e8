/**
 Revision-bound row identifiers: five parts joined by dots, two of them text in Base64 and one a number.
 What counts as a digit is the language's: digits of every script, of which only decimal ones have a value.
 */
module FeatureIds {
  import opened Base64
  import opened Text
  import opened Wrappers

  /** The second is the plain error of a number that has digits without a decimal value. */
  datatype FeatureIdError = InvalidFeatureId | NotANumber

  datatype FeatureId = FeatureId(assetKey: string, relativePath: string, checksum: string, rowNumber: int)

  predicate IsHexDigit(c: char) {
    '0' <= c <= '9' || 'a' <= c <= 'f'
  }

  function Slashed(path: string): string {
    if path == "" then "" else [if path[0] == '\\' then '/' else path[0]] + Slashed(path[1..])
  }

  predicate IsSafePath(path: string) {
    && path != "" && 0 as char !in path && path[0] != '/'
    && forall part :: part in Split(Slashed(path), '/') ==> part != "" && part != "." && part != ".."
  }

  /** What the constructor accepts. */
  predicate IsValid(id: FeatureId) {
    && id.assetKey != "" && '.' !in id.assetKey && '/' !in id.assetKey
    && IsSafePath(id.relativePath)
    && |id.checksum| == 64 && (forall i :: 0 <= i < 64 ==> IsHexDigit(id.checksum[i]))
    && id.rowNumber >= 0
  }

  // ---------- what is valid, by characters ----------

  predicate Separates(c: char) {
    c == '/' || c == '\\'
  }

  /** A component of a path: what stands between two separators of either kind, or an end. */
  ghost predicate IsComponent(path: string, i: int, j: int) {
    && 0 <= i <= j <= |path| && (i == 0 || Separates(path[i - 1])) && (j == |path| || Separates(path[j]))
    && forall k :: i <= k < j ==> !Separates(path[k])
  }

  /** Nothing in the path leads up, stays, or is left out. */
  ghost predicate HasPlainComponents(path: string) {
    forall i, j :: IsComponent(path, i, j) ==> path[i..j] != "" && path[i..j] != "." && path[i..j] != ".."
  }

  lemma {:induction false} SlashedAt(path: string, k: nat)
    requires k < |path|
    ensures |Slashed(path)| == |path| && Slashed(path)[k] == if Separates(path[k]) then '/' else path[k]
  {
    SlashedLength(path);
    if k > 0 {
      SlashedAt(path[1..], k - 1);
    }
  }

  lemma {:induction false} SlashedLength(path: string)
    ensures |Slashed(path)| == |path|
  {
    if path != "" {
      SlashedLength(path[1..]);
    }
  }

  lemma {:induction false} ComponentIsStretch(path: string, i: int, j: int)
    ensures IsComponent(path, i, j) <==> IsStretch(Slashed(path), '/', i, j)
    ensures IsComponent(path, i, j) ==> Slashed(path)[i..j] == path[i..j]
  {
    SlashedLength(path);
    forall k: nat | k < |path| ensures Slashed(path)[k] == if Separates(path[k]) then '/' else path[k] {
      SlashedAt(path, k);
    }
  }

  /** A path is safe if and only if it is relative, without NUL, and every component of it is plain. */
  lemma {:induction false} SafeExactlyWhen(path: string)
    ensures IsSafePath(path) <==>
              path != "" && 0 as char !in path && path[0] != '/' && HasPlainComponents(path)
  {
    forall part ensures part in Split(Slashed(path), '/') <==> HasStretch(Slashed(path), '/', 0, part) {
      PartsAreStretches(Slashed(path), '/', part);
    }
    forall i, j ensures IsComponent(path, i, j) <==> IsStretch(Slashed(path), '/', i, j) {
      ComponentIsStretch(path, i, j);
    }
    forall i, j | IsComponent(path, i, j) ensures path[i..j] in Split(Slashed(path), '/') {
      ComponentIsStretch(path, i, j);
      assert 0 <= i && IsStretch(Slashed(path), '/', i, j) && Slashed(path)[i..j] == path[i..j];
    }
    if HasPlainComponents(path) {
      forall part | part in Split(Slashed(path), '/') ensures part != "" && part != "." && part != ".." {
        var i, j :| 0 <= i && IsStretch(Slashed(path), '/', i, j) && Slashed(path)[i..j] == part;
        ComponentIsStretch(path, i, j);
      }
    }
  }

  /** What an identity must be, by the characters of its fields. */
  lemma {:induction false} ValidExactlyWhen(id: FeatureId)
    ensures IsValid(id) <==>
              && id.assetKey != "" && (forall c :: c in id.assetKey ==> c != '.' && c != '/')
              && id.relativePath != "" && 0 as char !in id.relativePath && id.relativePath[0] != '/'
              && HasPlainComponents(id.relativePath)
              && |id.checksum| == 64 && (forall c :: c in id.checksum ==> c in "0123456789abcdef")
              && id.rowNumber >= 0
  {
    SafeExactlyWhen(id.relativePath);
    forall c ensures IsHexDigit(c) <==> c in "0123456789abcdef" {
      HexDigits(c);
    }
  }

  lemma {:induction false} HexDigits(c: char)
    ensures IsHexDigit(c) <==> c in "0123456789abcdef"
  {
    assert "0123456789abcdef" == "0123456789" + "abcdef";
    assert IsHexDigit(c) ==> c in ['0', '1', '2', '3', '4', '5', '6', '7', '8', '9', 'a', 'b', 'c', 'd', 'e', 'f'];
  }

  // ---------- digits of every script ----------

  /** Which characters are digits, and the values of the decimal ones. */
  datatype DigitTable = DigitTable(isDigit: char -> bool, decimal: char -> Option<nat>)

  function AsciiValue(c: char): Option<nat> {
    if IsDigit(c) then Some(c as int - '0' as int) else None
  }

  /** In ASCII the digits are 0 to 9; elsewhere every decimal digit is a digit with a value below ten. */
  ghost predicate IsLawful(d: DigitTable) {
    forall c: char ::
      && (c < 128 as char ==> d.isDigit(c) == IsDigit(c) && d.decimal(c) == AsciiValue(c))
      && (d.decimal(c).Some? ==> d.isDigit(c) && d.decimal(c).value < 10)
  }

  predicate AreDigits(d: DigitTable, s: string) {
    s != "" && forall i :: 0 <= i < |s| ==> d.isDigit(s[i])
  }

  /** The number that decimal digits spell, of whatever scripts they are. */
  function ParseDecimal(d: DigitTable, s: string): Option<nat> {
    if s == "" then None
    else
      var last := d.decimal(s[|s| - 1]);
      if last.None? then None
      else if |s| == 1 then last
      else
        var front := ParseDecimal(d, s[..|s| - 1]);
        if front.None? then None else Some(front.value * 10 + last.value)
  }

  lemma {:induction false} AsciiNumber(d: DigitTable, s: string)
    requires IsLawful(d) && IsNumber(s)
    ensures AreDigits(d, s) && ParseDecimal(d, s) == Some(ParseNat(s))
  {
    if |s| > 1 {
      AsciiNumber(d, s[..|s| - 1]);
      assert forall i :: 0 <= i < |s| - 1 ==> s[i] == s[..|s| - 1][i];
    }
  }

  /** Printing a parsed number gives back its digits exactly when they are ASCII and have no leading zero. */
  lemma {:induction false} DecimalPrintedExactlyWhen(d: DigitTable, s: string)
    requires IsLawful(d) && ParseDecimal(d, s).Some?
    ensures Digits(ParseDecimal(d, s).value) == s <==> IsNumber(s) && HasNoLeadingZero(s)
  {
    DigitsAreDigits(ParseDecimal(d, s).value);
    if IsNumber(s) {
      AsciiNumber(d, s);
      PrintedExactlyWhen(s);
    }
  }

  /** A digit may be replaced by one of another script with the same value. */
  lemma {:induction false} DigitReplaced(d: DigitTable, s: string, i: nat, c: char)
    requires IsLawful(d) && i < |s| && d.decimal(c).Some? && d.decimal(c) == d.decimal(s[i])
    ensures ParseDecimal(d, s[i := c]) == ParseDecimal(d, s)
    ensures AreDigits(d, s) ==> AreDigits(d, s[i := c])
  {
    var n := |s| - 1;
    if i == n {
      assert s[i := c][..n] == s[..n];
    } else {
      assert s[i := c][..n] == s[..n][i := c];
      DigitReplaced(d, s[..n], i, c);
    }
  }

  // ---------- encoding and decoding ----------

  function EncodeText(value: string): string {
    Spell(Utf8(value))
  }

  function DecodeText(value: string): Option<string> {
    if !IsAscii(value) then None
    else
      match Decode(false, Padded(value))
      case None => None
      case Some(bytes) => FromUtf8(bytes)
  }

  function Parts(id: FeatureId): seq<string>
    requires IsValid(id)
  {
    ["v1", EncodeText(id.assetKey), EncodeText(id.relativePath), id.checksum, Digits(id.rowNumber)]
  }

  function Encode(id: FeatureId): string
    requires IsValid(id)
  {
    Join(Parts(id), '.')
  }

  function DecodeParts(d: DigitTable, parts: seq<string>): Result<FeatureId, FeatureIdError> {
    if |parts| != 5 || parts[0] != "v1" || !AreDigits(d, parts[4]) then Err(InvalidFeatureId)
    else
      match (DecodeText(parts[1]), DecodeText(parts[2]))
      case (Some(assetKey), Some(relativePath)) =>
        var row := ParseDecimal(d, parts[4]);
        if row.None? then Err(NotANumber)
        else
          var id := FeatureId(assetKey, relativePath, parts[3], row.value);
          if IsValid(id) then Ok(id) else Err(InvalidFeatureId)
      case _ => Err(InvalidFeatureId)
  }

  function DecodeId(d: DigitTable, value: string): Result<FeatureId, FeatureIdError> {
    DecodeParts(d, Split(value, '.'))
  }

  // ---------- round trip ----------

  lemma {:induction false} TextRoundTrip(value: string)
    ensures DecodeText(EncodeText(value)) == Some(value) && Avoids(EncodeText(value), '.')
  {
    SpellIsSpelling(Utf8(value));
    RoundTrip(false, Utf8(value));
    Utf8RoundTrip(value);
  }

  lemma {:induction false} TextAvoidsDots(value: string)
    ensures Avoids(EncodeText(value), '.')
  {
    SpellIsSpelling(Utf8(value));
  }

  lemma {:induction false} NumberAvoidsDots(n: nat)
    ensures Avoids(Digits(n), '.')
  {
    DigitsAreDigits(n);
  }

  lemma {:induction false} ChecksumAvoidsDots(id: FeatureId)
    requires IsValid(id)
    ensures Avoids(id.checksum, '.')
  {
  }

  lemma {:induction false} PartsAvoidDots(id: FeatureId)
    requires IsValid(id)
    ensures forall i :: 0 <= i < 5 ==> Avoids(Parts(id)[i], '.')
  {
    TextAvoidsDots(id.assetKey);
    TextAvoidsDots(id.relativePath);
    ChecksumAvoidsDots(id);
    NumberAvoidsDots(id.rowNumber);
    forall i | 0 <= i < 5 ensures Avoids(Parts(id)[i], '.') {
      assert i == 0 || i == 1 || i == 2 || i == 3 || i == 4;
    }
  }

  /** Decoding gives back every identity, dots in its path and all. */
  lemma {:induction false} DecodeUndoesEncode(d: DigitTable, id: FeatureId)
    requires IsLawful(d) && IsValid(id)
    ensures DecodeId(d, Encode(id)) == Ok(id)
  {
    PartsAvoidDots(id);
    SplitUndoesJoin(Parts(id), '.');
    TextRoundTrip(id.assetKey);
    TextRoundTrip(id.relativePath);
    NumberRoundTrip(id.rowNumber);
    AsciiNumber(d, Parts(id)[4]);
  }

  /**
   What an identifier looks like: the version, the Base64 of the UTF-8 of asset key and path, the checksum and
   the row number in decimal, between dots.
   */
  lemma {:induction false} EncodedAs(id: FeatureId)
    requires IsValid(id)
    ensures var key, path := Spell(Utf8(id.assetKey)), Spell(Utf8(id.relativePath));
            && Encode(id) == "v1" + "." + key + "." + path + "." + id.checksum + "." + Digits(id.rowNumber)
            && Split(Encode(id), '.') == ["v1", key, path, id.checksum, Digits(id.rowNumber)]
  {
    PartsAvoidDots(id);
    SplitUndoesJoin(Parts(id), '.');
    JoinFive("v1", EncodeText(id.assetKey), EncodeText(id.relativePath), id.checksum, Digits(id.rowNumber));
  }

  lemma {:induction false} JoinFive(a: string, b: string, c: string, d: string, e: string)
    ensures Join([a, b, c, d, e], '.') == a + "." + b + "." + c + "." + d + "." + e
  {
    assert [a, b, c, d, e][1..] == [b, c, d, e] && [b, c, d, e][1..] == [c, d, e];
    assert [c, d, e][1..] == [d, e] && [d, e][1..] == [e];
    assert Join([e], '.') == e;
    assert Join([d, e], '.') == d + "." + e;
    assert Join([c, d, e], '.') == c + "." + (d + "." + e);
    assert Join([b, c, d, e], '.') == b + "." + (c + "." + (d + "." + e));
    assert Join([a, b, c, d, e], '.') == a + "." + (b + "." + (c + "." + (d + "." + e)));
  }

  /**
   Which identifiers are accepted, by their parts; and the plain error of a number is raised exactly when only
   the value of a digit is missing.
   */
  lemma {:induction false} DecodedExactlyWhen(d: DigitTable, value: string, id: FeatureId)
    ensures var parts := Split(value, '.');
            DecodeId(d, value) == Ok(id) <==>
              && |parts| == 5 && parts[0] == "v1" && parts[3] == id.checksum && IsValid(id)
              && DecodeText(parts[1]) == Some(id.assetKey) && DecodeText(parts[2]) == Some(id.relativePath)
              && AreDigits(d, parts[4]) && ParseDecimal(d, parts[4]) == Some(id.rowNumber)
    ensures var parts := Split(value, '.');
            DecodeId(d, value) == Err(NotANumber) <==>
              && |parts| == 5 && parts[0] == "v1" && DecodeText(parts[1]).Some? && DecodeText(parts[2]).Some?
              && AreDigits(d, parts[4]) && ParseDecimal(d, parts[4]).None?
  {
  }

  /** Different identities have different identifiers. */
  lemma {:induction false} EncodeIsInjective(a: FeatureId, b: FeatureId)
    requires IsValid(a) && IsValid(b) && Encode(a) == Encode(b)
    ensures a == b
  {
    var ascii := DigitTable(IsDigit, AsciiValue);
    DecodeUndoesEncode(ascii, a);
    DecodeUndoesEncode(ascii, b);
  }

  /**
   Whatever decodes is a valid identity that encodes and decodes to itself: decoding twice through the
   canonical identifier changes nothing, even for identifiers that are not canonical.
   */
  lemma {:induction false} DecodedIsCanonicalizable(d: DigitTable, value: string)
    requires IsLawful(d) && DecodeId(d, value).Ok?
    ensures IsValid(DecodeId(d, value).value) && DecodeId(d, Encode(DecodeId(d, value).value)) == DecodeId(d, value)
  {
    DecodeUndoesEncode(d, DecodeId(d, value).value);
  }

  // ---------- other names of an identity ----------

  lemma {:induction false} RespelledDecodes(d: DigitTable, id: FeatureId, number: string)
    requires IsValid(id) && AreDigits(d, number) && ParseDecimal(d, number) == Some(id.rowNumber)
    ensures DecodeParts(d, Parts(id)[4 := number]) == Ok(id)
  {
    TextRoundTrip(id.assetKey);
    TextRoundTrip(id.relativePath);
  }

  lemma {:induction false} RespelledSplits(id: FeatureId, number: string)
    requires IsValid(id) && Avoids(number, '.')
    ensures Split(Join(Parts(id)[4 := number], '.'), '.') == Parts(id)[4 := number]
  {
    PartsAvoidDots(id);
    var respelled := Parts(id)[4 := number];
    forall i | 0 <= i < |respelled| ensures Avoids(respelled[i], '.') {
      assert i < 4 ==> respelled[i] == Parts(id)[i];
    }
    SplitUndoesJoin(respelled, '.');
  }

  /** Another spelling of the row number makes another identifier of the same identity. */
  lemma {:induction false} OtherNumber(d: DigitTable, id: FeatureId, number: string)
    requires IsValid(id) && Avoids(number, '.') && number != Digits(id.rowNumber)
    requires AreDigits(d, number) && ParseDecimal(d, number) == Some(id.rowNumber)
    ensures var other := Join(Parts(id)[4 := number], '.');
            DecodeId(d, other) == Ok(id) && other != Encode(id)
  {
    RespelledSplits(id, number);
    RespelledDecodes(d, id, number);
    DigitsAreDigits(id.rowNumber);
    RespelledSplits(id, Digits(id.rowNumber));
    assert Parts(id)[4 := Digits(id.rowNumber)] == Parts(id);
    assert Parts(id)[4 := number][4] == number;
  }

  /** Decoding alone is not injective: a leading zero of the row number gives every identity another identifier. */
  lemma {:induction false} LeadingZeroIsLost(d: DigitTable, id: FeatureId)
    requires IsLawful(d) && IsValid(id)
    ensures var other := Join(Parts(id)[4 := "0" + Parts(id)[4]], '.');
            DecodeId(d, other) == Ok(id) && other != Encode(id)
  {
    var number := Digits(id.rowNumber);
    NumberRoundTrip(id.rowNumber);
    ZeroPrefix(number);
    AsciiNumber(d, "0" + number);
    OtherNumber(d, id, "0" + number);
  }

  /** So does a digit of another script in the place of one of the row number's. */
  lemma {:induction false} ScriptIsLost(d: DigitTable, id: FeatureId, i: nat, c: char)
    requires IsLawful(d) && IsValid(id) && i < |Parts(id)[4]|
    requires c >= 128 as char && d.decimal(c) == d.decimal(Parts(id)[4][i])
    ensures var other := Join(Parts(id)[4 := Parts(id)[4][i := c]], '.');
            DecodeId(d, other) == Ok(id) && other != Encode(id)
  {
    var number := Digits(id.rowNumber);
    NumberRoundTrip(id.rowNumber);
    AsciiNumber(d, number);
    assert d.decimal(number[i]) == AsciiValue(number[i]);
    DigitReplaced(d, number, i, c);
    assert number[i := c][i] == c;
    OtherNumber(d, id, number[i := c]);
  }

  /** Three in Arabic script. */
  const ARABIC_THREE: char := 0x0663 as char

  /** Row 3 of any asset is also accepted with that digit, and printed again with the ASCII one. */
  lemma {:induction false} ArabicThreeIsLost(d: DigitTable, id: FeatureId)
    requires IsLawful(d) && d.decimal(ARABIC_THREE) == Some(3) && IsValid(id) && id.rowNumber == 3
    ensures var other := Join(Parts(id)[4 := [ARABIC_THREE]], '.');
            && DecodeId(d, other) == Ok(id) && other != Encode(id)
            && IsCanonical(Split(other, '.')[1]) && IsCanonical(Split(other, '.')[2])
            && HasNoLeadingZero(Split(other, '.')[4])
  {
    assert Parts(id)[4] == ['3'] && ['3'][0 := ARABIC_THREE] == [ARABIC_THREE];
    assert d.decimal('3') == AsciiValue('3') == Some(3);
    ScriptIsLost(d, id, 0, ARABIC_THREE);
    PartsAvoidDots(id);
    SplitUndoesJoin(Parts(id)[4 := [ARABIC_THREE]], '.');
    SpellIsCanonical(Utf8(id.assetKey));
    SpellIsCanonical(Utf8(id.relativePath));
  }

  lemma {:induction false} TextExactlyWhenCanonical(value: string)
    requires DecodeText(value).Some?
    ensures EncodeText(DecodeText(value).value) == value <==> IsCanonical(value)
  {
    var bytes := Decode(false, Padded(value)).value;
    FromUtf8IsStrict(bytes);
    SpellsExactlyWhenCanonical(false, value);
  }

  /** An identifier in the one spelling of its identity, told by the characters of its parts. */
  predicate IsCanonicalId(parts: seq<string>) {
    |parts| == 5 && IsCanonical(parts[1]) && IsCanonical(parts[2]) && IsNumber(parts[4]) && HasNoLeadingZero(parts[4])
  }

  lemma {:induction false} DecodedParts(d: DigitTable, parts: seq<string>)
    requires DecodeParts(d, parts).Ok?
    ensures var id := DecodeParts(d, parts).value;
            && |parts| == 5 && parts[0] == "v1" && parts[3] == id.checksum && id.rowNumber >= 0
            && DecodeText(parts[1]) == Some(id.assetKey) && DecodeText(parts[2]) == Some(id.relativePath)
            && ParseDecimal(d, parts[4]) == Some(id.rowNumber)
  {
  }

  lemma {:induction false} FiveEqual(a: seq<string>, b: seq<string>)
    requires |a| == |b| == 5 && a[0] == b[0] && a[3] == b[3]
    ensures a == b <==> a[1] == b[1] && a[2] == b[2] && a[4] == b[4]
  {
    assert a == b <==> forall i :: 0 <= i < 5 ==> a[i] == b[i];
  }

  lemma {:induction false} PartsAgreeExactlyWhen(d: DigitTable, parts: seq<string>)
    requires IsLawful(d) && DecodeParts(d, parts).Ok?
    ensures Parts(DecodeParts(d, parts).value) == parts <==> IsCanonicalId(parts)
  {
    DecodedParts(d, parts);
    FiveEqual(Parts(DecodeParts(d, parts).value), parts);
    TextExactlyWhenCanonical(parts[1]);
    TextExactlyWhenCanonical(parts[2]);
    DecimalPrintedExactlyWhen(d, parts[4]);
  }

  /**
   An accepted identifier is the encoding of what it decodes to if and only if its text parts have only
   characters of the URL-safe alphabet and no spare bits, and its row number has only ASCII digits and no
   leading zero. Every other accepted identifier is a second name of its identity.
   */
  lemma {:induction false} EncodedExactlyWhenCanonical(d: DigitTable, value: string)
    requires IsLawful(d) && DecodeId(d, value).Ok?
    ensures Encode(DecodeId(d, value).value) == value <==> IsCanonicalId(Split(value, '.'))
  {
    var parts, id := Split(value, '.'), DecodeId(d, value).value;
    PartsAgreeExactlyWhen(d, parts);
    JoinUndoesSplit(value, '.');
    PartsAvoidDots(id);
    SplitUndoesJoin(Parts(id), '.');
  }

  lemma {:induction false} ZeroPrefix(s: string)
    requires IsNumber(s)
    ensures IsNumber("0" + s) && ParseNat("0" + s) == ParseNat(s)
  {
    if |s| == 1 {
      assert ("0" + s)[..1] == "0";
    } else {
      ZeroPrefix(s[..|s| - 1]);
      assert ("0" + s)[..|s|] == "0" + s[..|s| - 1];
    }
  }
}
