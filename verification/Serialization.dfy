/**
 Result values of the database, their encoding as JSON, and the prediction of the encoded size without
 printing anything. Values are told apart as the source tests them, booleans before integers.
 */
module Serialization {
  import opened Wrappers
  import opened Json
  import opened Text

  const MAX_SAFE_INTEGER := 0x1F_FFFF_FFFF_FFFF

  /** A key of a struct: a string, or anything else. */
  datatype Key = Name(text: string) | Other

  /**
   Finite floats, decimals, dates, times, intervals and UUIDs carry the text Python prints for them. Raw
   values carry only their length. A struct lists its items in order.
   */
  datatype Value =
    | Missing
    | Boolean(b: bool)
    | Text(s: string)
    | Integer(n: int)
    | Float(f: Floating)
    | Textual(text: string)
    | Binary(byteLength: nat)
    | List(elements: seq<Value>)
    | Struct(entries: seq<Entry>)
    | Unsupported(typeName: string)

  datatype Entry = Entry(key: Key, value: Value)

  datatype Floating = Finite(repr: Numeral) | NotANumber | Infinite(negative: bool)
  {
    /** What Python prints for it. */
    function Repr(): Ascii {
      match this
      case Finite(repr) => repr
      case NotANumber => "nan"
      case Infinite(negative) => if negative then "-inf" else "inf"
    }
  }

  datatype EncodeError = StructKeyNotString | UnsupportedType(typeName: string)

  predicate IsSafe(n: int) {
    -MAX_SAFE_INTEGER <= n <= MAX_SAFE_INTEGER
  }

  function Summary(kind: string, byteLength: nat): Json {
    Object([Field("$type", Str(kind)), Field("byte_length", Number(Decimal(byteLength)))])
  }

  // ---------- encoding ----------

  predicate IsScalar(v: Value) {
    !v.List? && !v.Struct? && !v.Unsupported?
  }

  /** Integers beyond what JSON readers keep exactly, and floats that are not finite, become strings. */
  function EncodeScalar(v: Value, geometry: bool): Json
    requires IsScalar(v)
  {
    match v
    case Missing => Null
    case Boolean(b) => Bool(b)
    case Text(s) => Str(s)
    case Integer(n) => if IsSafe(n) then Number(Decimal(n)) else Str(Decimal(n))
    case Float(f) => if f.Finite? then Number(f.Repr()) else Str(f.Repr())
    case Textual(text) => Str(text)
    case Binary(byteLength) => Summary(if geometry then "geometry" else "binary", byteLength)
  }

  function Encode(v: Value, geometry: bool): Result<Json, EncodeError>
    decreases v, 1
  {
    match v
    case List(elements) =>
      var items := EncodeElements(elements);
      if items.Ok? then Ok(Array(items.value)) else Err(items.error)
    case Struct(entries) =>
      var fields := EncodeEntries(entries);
      if fields.Ok? then Ok(Object(fields.value)) else Err(fields.error)
    case Unsupported(typeName) => Err(UnsupportedType(typeName))
    case _ => Ok(EncodeScalar(v, geometry))
  }

  /** Left to right; the first value that fails decides. */
  function EncodeElements(elements: seq<Value>): Result<seq<Json>, EncodeError>
    decreases elements, 0
  {
    if elements == [] then Ok([])
    else
      var front := EncodeElements(elements[..|elements| - 1]);
      if front.Err? then front
      else
        var last := Encode(elements[|elements| - 1], false);
        if last.Ok? then Ok(front.value + [last.value]) else Err(last.error)
  }

  /** A key that is not a string fails before its value is looked at. */
  function FieldOf(key: Key, encoded: Result<Json, EncodeError>): Result<Field, EncodeError> {
    if key.Other? then Err(StructKeyNotString)
    else if encoded.Ok? then Ok(Field(key.text, encoded.value))
    else Err(encoded.error)
  }

  function EncodeItem(entry: Entry): Result<Json, EncodeError>
    decreases entry, 2
  {
    Encode(entry.value, false)
  }

  function EncodeEntries(entries: seq<Entry>): Result<seq<Field>, EncodeError>
    decreases entries, 0
  {
    if entries == [] then Ok([])
    else
      var front, last := EncodeEntries(entries[..|entries| - 1]), entries[|entries| - 1];
      if front.Err? then front
      else
        var field := FieldOf(last.key, EncodeItem(last));
        if field.Ok? then Ok(front.value + [field.value]) else Err(field.error)
  }

  lemma {:induction false} ErrorInPrefixDecides(elements: seq<Value>, i: nat)
    requires i <= |elements| && EncodeElements(elements[..i]).Err?
    ensures EncodeElements(elements) == EncodeElements(elements[..i])
    decreases |elements|
  {
    if i < |elements| {
      var front := elements[..|elements| - 1];
      assert front[..i] == elements[..i];
      ErrorInPrefixDecides(front, i);
    } else {
      assert elements[..i] == elements;
    }
  }

  lemma {:induction false} ErrorInFirstEntriesDecides(entries: seq<Entry>, i: nat)
    requires i <= |entries| && EncodeEntries(entries[..i]).Err?
    ensures EncodeEntries(entries) == EncodeEntries(entries[..i])
    decreases |entries|
  {
    if i < |entries| {
      var front := entries[..|entries| - 1];
      assert front[..i] == entries[..i];
      ErrorInFirstEntriesDecides(front, i);
    } else {
      assert entries[..i] == entries;
    }
  }

  // ---------- predicting the size ----------

  /** The printed length of a string, character by character. */
  method JsonStringSize(value: string) returns (size: nat)
    ensures size == Size(Str(value)) == |Utf8(Print(Str(value)))|
  {
    size := 2;
    for i := 0 to |value|
      invariant size == 2 + CharsSize(value[..i])
    {
      assert value[..i + 1][..i] == value[..i];
      if value[i] in {'\"', '\\', 8 as char, 12 as char, '\n', '\r', '\t'} {
        size := size + 2;
      } else if value[i] < ' ' {
        size := size + 6;
      } else {
        size := size + Width(value[i]);
      }
    }
    assert value[..|value|] == value;
    SizeIsPrintedBytes(Str(value));
  }

  method ScalarSize(v: Value, geometry: bool) returns (size: nat)
    requires IsScalar(v)
    ensures size == Size(EncodeScalar(v, geometry))
  {
    match v
    case Missing => size := 4;
    case Boolean(b) => size := if b then 4 else 5;
    case Text(s) => size := JsonStringSize(s);
    case Integer(n) =>
      if IsSafe(n) {
        DecimalIsAscii(n);
        AsciiLength(Decimal(n));
        size := |Decimal(n)|;
      } else {
        size := JsonStringSize(Decimal(n));
      }
    case Float(f) =>
      if f.Finite? {
        AsciiLength(f.Repr());
        size := |f.Repr()|;
      } else {
        size := JsonStringSize(f.Repr());
      }
    case Textual(text) => size := JsonStringSize(text);
    case Binary(byteLength) => size := Size(Summary(if geometry then "geometry" else "binary", byteLength));
  }

  ghost predicate Predicts(size: Result<nat, EncodeError>, encoded: Result<Json, EncodeError>) {
    match encoded
    case Ok(j) => size == Ok(Size(j))
    case Err(e) => size == Err(e)
  }

  lemma {:induction false} EncodedIsPrinted(v: Value, geometry: bool)
    ensures Encode(v, geometry).Ok? ==>
              Size(Encode(v, geometry).value) == |Utf8(Print(Encode(v, geometry).value))|
  {
    if Encode(v, geometry).Ok? {
      SizeIsPrintedBytes(Encode(v, geometry).value);
    }
  }

  /**
   The size of the printed encoding, computed without building it: exactly the number of bytes printing
   it takes, and an error exactly when encoding fails, the same one.
   */
  method EncodedJsonSize(v: Value, geometry: bool) returns (size: Result<nat, EncodeError>)
    ensures Predicts(size, Encode(v, geometry))
    ensures size.Ok? ==> size.value == |Utf8(Print(Encode(v, geometry).value))|
    decreases v, 1
  {
    match v {
      case List(elements) => size := ElementsSize(elements);
      case Struct(entries) => size := EntriesSize(entries);
      case Unsupported(typeName) => size := Err(UnsupportedType(typeName));
      case _ =>
        var n := ScalarSize(v, geometry);
        size := Ok(n);
    }
    EncodedIsPrinted(v, geometry);
  }

  function Separators(n: nat): nat {
    if n == 0 then 0 else n - 1
  }

  lemma {:induction false} NextElement(elements: seq<Value>, i: nat, items: seq<Json>)
    requires i < |elements| && EncodeElements(elements[..i]) == Ok(items)
    ensures EncodeElements(elements[..i + 1]) ==
            match Encode(elements[i], false)
            case Ok(j) => Ok(items + [j])
            case Err(e) => Err(e)
  {
    assert elements[..i + 1][..i] == elements[..i];
  }

  lemma {:induction false} NextEntry(entries: seq<Entry>, i: nat, fields: seq<Field>)
    requires i < |entries| && EncodeEntries(entries[..i]) == Ok(fields)
    ensures EncodeEntries(entries[..i + 1]) ==
            match FieldOf(entries[i].key, EncodeItem(entries[i]))
            case Ok(f) => Ok(fields + [f])
            case Err(e) => Err(e)
  {
    assert entries[..i + 1][..i] == entries[..i];
  }

  method ElementsSize(elements: seq<Value>) returns (size: Result<nat, EncodeError>)
    ensures match EncodeElements(elements)
            case Ok(items) => size == Ok(2 + ItemsSize(items))
            case Err(e) => size == Err(e)
    decreases elements, 0
  {
    var total := 0;
    ghost var items: seq<Json> := [];
    for i := 0 to |elements|
      invariant EncodeElements(elements[..i]) == Ok(items) && |items| == i
      invariant total + Separators(i) == ItemsSize(items)
    {
      NextElement(elements, i, items);
      size := EncodedJsonSize(elements[i], false);
      if size.Err? {
        ErrorInPrefixDecides(elements, i + 1);
        return;
      }
      ghost var item := Encode(elements[i], false).value;
      assert (items + [item])[..i] == items;
      items := items + [item];
      total := total + size.value;
    }
    assert elements[..|elements|] == elements;
    size := Ok(2 + Separators(|elements|) + total);
  }

  /** A key, a colon and a value. */
  ghost predicate PredictsField(size: Result<nat, EncodeError>, field: Result<Field, EncodeError>) {
    match field
    case Ok(f) => size == Ok(QuotedSize(f.name) + 1 + Size(f.value))
    case Err(e) => size == Err(e)
  }

  method EntrySize(entry: Entry) returns (size: Result<nat, EncodeError>)
    ensures PredictsField(size, FieldOf(entry.key, EncodeItem(entry)))
    decreases entry, 2
  {
    if entry.key.Other? {
      return Err(StructKeyNotString);
    }
    var name := JsonStringSize(entry.key.text);
    var one := EncodedJsonSize(entry.value, false);
    size := if one.Ok? then Ok(name + 1 + one.value) else one;
  }

  method EntriesSize(entries: seq<Entry>) returns (size: Result<nat, EncodeError>)
    ensures match EncodeEntries(entries)
            case Ok(fields) => size == Ok(2 + FieldsSize(fields))
            case Err(e) => size == Err(e)
    decreases entries, 0
  {
    var total := 2 + Separators(|entries|);
    ghost var fields: seq<Field> := [];
    for i := 0 to |entries|
      invariant EncodeEntries(entries[..i]) == Ok(fields) && |fields| == i
      invariant total + Separators(i) == 2 + Separators(|entries|) + FieldsSize(fields)
    {
      NextEntry(entries, i, fields);
      size := EntrySize(entries[i]);
      if size.Err? {
        ErrorInFirstEntriesDecides(entries, i + 1);
        return;
      }
      ghost var field := FieldOf(entries[i].key, EncodeItem(entries[i])).value;
      assert (fields + [field])[..i] == fields;
      fields := fields + [field];
      total := total + size.value;
    }
    assert entries[..|entries|] == entries;
    size := Ok(total);
  }
}
