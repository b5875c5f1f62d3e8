/**
 Encoded values read back. A reader who knows the kind of a value, not the value, gets the value from its
 JSON, and no other JSON gives it: that is what the encoding means, and what the encoding of a cell, a row
 and a page are held against.
 */
module ValueReading {
  import opened Wrappers
  import opened Text
  import opened Json
  import opened Serialization
  import opened JsonReading

  // ---------- numbers ----------

  predicate IsCanonical(s: string) {
    IsNumber(s) && HasNoLeadingZero(s)
  }

  /** An integer in decimal, with a minus sign before a negative one and no leading zero. */
  function ReadInteger(s: string): Option<int> {
    var negative := s != "" && s[0] == '-';
    var digits := if negative then s[1..] else s;
    if !IsCanonical(digits) || (negative && digits == "0") then None
    else
      var n: int := ParseNat(digits);
      Some(if negative then -n else n)
  }

  lemma {:induction false} NaturalReadsExactlyWhen(s: string, n: nat)
    ensures IsCanonical(s) && ParseNat(s) == n <==> s == Digits(n)
  {
    NumberRoundTrip(n);
    DigitsHaveNoLeadingZero(n);
    if IsCanonical(s) {
      PrintedExactlyWhen(s);
    }
  }

  lemma {:induction false} NegativeReadsExactlyWhen(s: string, n: int)
    requires n < 0
    ensures s != "" && s[0] == '-' && IsCanonical(s[1..]) && ParseNat(s[1..]) == -n <==> s == Decimal(n)
  {
    if s != "" && s[0] == '-' {
      NaturalReadsExactlyWhen(s[1..], -n);
      assert "-" + s[1..] == s;
    }
    NaturalReadsExactlyWhen(Digits(-n), -n);
    assert Decimal(n)[1..] == Digits(-n);
  }

  lemma {:induction false} ZeroReads(s: string)
    requires IsCanonical(s)
    ensures ParseNat(s) == 0 <==> s == "0"
  {
    NaturalReadsExactlyWhen(s, 0);
    assert Digits(0) == "0";
  }

  lemma {:induction false} IntegerReadsExactlyWhen(s: string, n: int)
    ensures ReadInteger(s) == Some(n) <==> s == Decimal(n)
  {
    if n < 0 {
      NegativeReadsExactlyWhen(s, n);
      if s == Decimal(n) {
        ZeroReads(s[1..]);
      }
    } else {
      NaturalReadsExactlyWhen(s, n);
      DigitsAreDigits(n);
      if s != "" && s[0] == '-' && IsCanonical(s[1..]) {
        ZeroReads(s[1..]);
      }
    }
  }

  // ---------- kinds ----------

  /** What a reader knows of a value beforehand: its type, and for a container the kinds of its parts. */
  datatype Kind =
    | NullKind
    | BooleanKind
    | TextKind
    | IntegerKind
    | FloatKind
    | TextualKind
    | RawKind(geometry: bool)
    | ListOf(elements: seq<Kind>)
    | StructOf(values: seq<Kind>)
    | NoKind

  function KindOf(v: Value, geometry: bool): Kind
    decreases v, 1
  {
    match v
    case Missing => NullKind
    case Boolean(_) => BooleanKind
    case Text(_) => TextKind
    case Integer(_) => IntegerKind
    case Float(_) => FloatKind
    case Textual(_) => TextualKind
    case Binary(_) => RawKind(geometry)
    case List(elements) => ListOf(ElementKinds(elements))
    case Struct(entries) => StructOf(EntryKinds(entries))
    case Unsupported(_) => NoKind
  }

  function ElementKinds(elements: seq<Value>): (kinds: seq<Kind>)
    ensures |kinds| == |elements|
    decreases elements, 0
  {
    if elements == [] then []
    else ElementKinds(elements[..|elements| - 1]) + [KindOf(elements[|elements| - 1], false)]
  }

  function EntryKind(entry: Entry): Kind
    decreases entry, 2
  {
    KindOf(entry.value, false)
  }

  function EntryKinds(entries: seq<Entry>): (kinds: seq<Kind>)
    ensures |kinds| == |entries|
    decreases entries, 0
  {
    if entries == [] then []
    else EntryKinds(entries[..|entries| - 1]) + [EntryKind(entries[|entries| - 1])]
  }

  // ---------- reading ----------

  /** The length that a summary of this type tells. */
  function SummaryLength(kind: string, j: Json): Option<nat> {
    if j.Object? && |j.fields| == 2 && j.fields[0] == Field("$type", Str(kind)) && j.fields[1].name == "byte_length"
       && j.fields[1].value.Number? && IsCanonical(j.fields[1].value.text)
    then Some(ParseNat(j.fields[1].value.text))
    else None
  }

  function ReadFloat(j: Json): Option<Floating> {
    if j.Number? then (if IsNumeral(j.text) then Some(Finite(j.text)) else None)
    else if j == Str("nan") then Some(NotANumber)
    else if j == Str("inf") then Some(Infinite(false))
    else if j == Str("-inf") then Some(Infinite(true))
    else None
  }

  /** A number for what readers of JSON keep exactly, a string beyond. */
  function ReadSafely(j: Json): Option<int> {
    var n := if j.Number? then ReadInteger(j.text) else if j.Str? then ReadInteger(j.s) else None;
    if n.Some? && (j.Number? <==> -9_007_199_254_740_991 <= n.value <= 9_007_199_254_740_991) then n else None
  }

  function ReadAs(kind: Kind, j: Json): Option<Value>
    decreases kind, 1
  {
    match kind
    case NullKind => if j.Null? then Some(Missing) else None
    case BooleanKind => if j.Bool? then Some(Boolean(j.b)) else None
    case TextKind => if j.Str? then Some(Value.Text(j.s)) else None
    case IntegerKind =>
      var n := ReadSafely(j);
      if n.Some? then Some(Integer(n.value)) else None
    case FloatKind =>
      var f := ReadFloat(j);
      if f.Some? then Some(Float(f.value)) else None
    case TextualKind => if j.Str? then Some(Textual(j.s)) else None
    case RawKind(geometry) =>
      var n := SummaryLength(if geometry then "geometry" else "binary", j);
      if n.Some? then Some(Binary(n.value)) else None
    case ListOf(kinds) =>
      var elements := if j.Array? then ReadElements(kinds, j.items) else None;
      if elements.Some? then Some(List(elements.value)) else None
    case StructOf(kinds) =>
      var entries := if j.Object? then ReadEntries(kinds, j.fields) else None;
      if entries.Some? then Some(Struct(entries.value)) else None
    case NoKind => None
  }

  function ReadElements(kinds: seq<Kind>, items: seq<Json>): Option<seq<Value>>
    decreases kinds, 0
  {
    if kinds == [] || items == [] then (if kinds == [] && items == [] then Some([]) else None)
    else
      var front := ReadElements(kinds[..|kinds| - 1], items[..|items| - 1]);
      var last := ReadAs(kinds[|kinds| - 1], items[|items| - 1]);
      if front.Some? && last.Some? then Some(front.value + [last.value]) else None
  }

  function ReadEntries(kinds: seq<Kind>, fields: seq<Field>): Option<seq<Entry>>
    decreases kinds, 0
  {
    if kinds == [] || fields == [] then (if kinds == [] && fields == [] then Some([]) else None)
    else
      var field := fields[|fields| - 1];
      var front := ReadEntries(kinds[..|kinds| - 1], fields[..|fields| - 1]);
      var last := ReadAs(kinds[|kinds| - 1], field.value);
      if front.Some? && last.Some? then Some(front.value + [Entry(Name(field.name), last.value)]) else None
  }

  // ---------- a value's encoding is what reads as the value ----------

  lemma {:induction false} SummaryReadsExactlyWhen(kind: string, n: nat, j: Json)
    ensures SummaryLength(kind, j) == Some(n) <==> j == Summary(kind, n)
  {
    if j.Object? && |j.fields| == 2 && j.fields[1].value.Number? {
      NaturalReadsExactlyWhen(j.fields[1].value.text, n);
      assert j.fields == [j.fields[0], j.fields[1]];
    }
    NaturalReadsExactlyWhen(Digits(n), n);
  }

  lemma {:induction false} SafeIntegerReadsExactlyWhen(n: int, j: Json)
    ensures ReadSafely(j) == Some(n) <==> j == EncodeScalar(Integer(n), false)
  {
    if j.Number? {
      IntegerReadsExactlyWhen(j.text, n);
    } else if j.Str? {
      IntegerReadsExactlyWhen(j.s, n);
    }
  }

  lemma {:induction false} ScalarReadsExactlyWhen(v: Value, geometry: bool, j: Json)
    requires IsScalar(v)
    ensures Encode(v, geometry) == Ok(j) <==> ReadAs(KindOf(v, geometry), j) == Some(v)
  {
    match v
    case Integer(n) => SafeIntegerReadsExactlyWhen(n, j);
    case Binary(n) => SummaryReadsExactlyWhen(if geometry then "geometry" else "binary", n, j);
    case _ =>
  }

  /** A sequence is made of its front and its last element in one way. */
  lemma {:induction false} LastTwo<T>(front: seq<T>, last: T, s: seq<T>)
    requires front + [last] == s
    ensures forall f, l {:trigger f + [l]} :: f + [l] == s ==> f == front && l == last
  {
    forall f, l {:trigger f + [l]} | f + [l] == s ensures f == front && l == last {
      assert s[..|s| - 1] == f && s[..|s| - 1] == front && s[|s| - 1] == l;
    }
  }

  lemma {:induction false} EncodeElementsLast(front: seq<Value>, v: Value, items: seq<Json>, j: Json)
    ensures EncodeElements(front + [v]) == Ok(items + [j]) <==>
              EncodeElements(front) == Ok(items) && Encode(v, false) == Ok(j)
  {
    assert (front + [v])[..|front|] == front;
    LastTwo(items, j, items + [j]);
  }

  lemma {:induction false} ReadElementsLast(kinds: seq<Kind>, k: Kind, items: seq<Json>, j: Json, front: seq<Value>,
      v: Value)
    ensures ReadElements(kinds + [k], items + [j]) == Some(front + [v]) <==>
              ReadElements(kinds, items) == Some(front) && ReadAs(k, j) == Some(v)
  {
    assert (kinds + [k])[..|kinds|] == kinds && (items + [j])[..|items|] == items;
    LastTwo(front, v, front + [v]);
  }

  lemma {:induction false} ElementsReadExactlyWhen(elements: seq<Value>, items: seq<Json>)
    ensures EncodeElements(elements) == Ok(items) <==> ReadElements(ElementKinds(elements), items) == Some(elements)
    decreases elements, 0
  {
    if elements != [] && items != [] {
      var front, v := elements[..|elements| - 1], elements[|elements| - 1];
      var before, j := items[..|items| - 1], items[|items| - 1];
      ElementsReadExactlyWhen(front, before);
      ReadsExactlyWhen(v, false, j);
      assert front + [v] == elements && before + [j] == items;
      EncodeElementsLast(front, v, before, j);
      ReadElementsLast(ElementKinds(front), KindOf(v, false), before, j, front, v);
    }
  }

  lemma {:induction false} EntryReadsExactlyWhen(entry: Entry, field: Field)
    ensures FieldOf(entry.key, EncodeItem(entry)) == Ok(field) <==>
              entry.key == Name(field.name) && ReadAs(EntryKind(entry), field.value) == Some(entry.value)
    decreases entry, 2
  {
    ReadsExactlyWhen(entry.value, false, field.value);
  }

  lemma {:induction false} EncodeEntriesLast(front: seq<Entry>, e: Entry, fields: seq<Field>, f: Field)
    ensures EncodeEntries(front + [e]) == Ok(fields + [f]) <==>
              EncodeEntries(front) == Ok(fields) && FieldOf(e.key, EncodeItem(e)) == Ok(f)
  {
    assert (front + [e])[..|front|] == front;
    LastTwo(fields, f, fields + [f]);
  }

  lemma {:induction false} ReadEntriesLast(kinds: seq<Kind>, k: Kind, fields: seq<Field>, f: Field,
      front: seq<Entry>, e: Entry)
    ensures ReadEntries(kinds + [k], fields + [f]) == Some(front + [e]) <==>
              && ReadEntries(kinds, fields) == Some(front)
              && e.key == Name(f.name) && ReadAs(k, f.value) == Some(e.value)
  {
    assert (kinds + [k])[..|kinds|] == kinds && (fields + [f])[..|fields|] == fields;
    LastTwo(front, e, front + [e]);
  }

  lemma {:induction false} EntryKindsLast(front: seq<Entry>, e: Entry)
    ensures EntryKinds(front + [e]) == EntryKinds(front) + [EntryKind(e)]
  {
    assert (front + [e])[..|front|] == front;
  }

  lemma {:induction false} OneMoreEntry(front: seq<Entry>, e: Entry, fields: seq<Field>, f: Field)
    requires EncodeEntries(front) == Ok(fields) <==> ReadEntries(EntryKinds(front), fields) == Some(front)
    requires FieldOf(e.key, EncodeItem(e)) == Ok(f) <==>
               e.key == Name(f.name) && ReadAs(EntryKind(e), f.value) == Some(e.value)
    ensures EncodeEntries(front + [e]) == Ok(fields + [f]) <==>
              ReadEntries(EntryKinds(front + [e]), fields + [f]) == Some(front + [e])
  {
    EntryKindsLast(front, e);
    EncodeEntriesLast(front, e, fields, f);
    ReadEntriesLast(EntryKinds(front), EntryKind(e), fields, f, front, e);
  }

  lemma {:induction false} EntriesReadExactlyWhen(entries: seq<Entry>, fields: seq<Field>)
    ensures EncodeEntries(entries) == Ok(fields) <==> ReadEntries(EntryKinds(entries), fields) == Some(entries)
    decreases entries, 0
  {
    if entries != [] && fields != [] {
      var front, e := entries[..|entries| - 1], entries[|entries| - 1];
      var before, f := fields[..|fields| - 1], fields[|fields| - 1];
      EntriesReadExactlyWhen(front, before);
      EntryReadsExactlyWhen(e, f);
      assert front + [e] == entries && before + [f] == fields;
      OneMoreEntry(front, e, before, f);
    }
  }

  lemma {:induction false} ListReads(elements: seq<Value>, geometry: bool, j: Json)
    ensures Encode(List(elements), geometry) == Ok(j) <==> j.Array? && EncodeElements(elements) == Ok(j.items)
    ensures ReadAs(KindOf(List(elements), geometry), j) == Some(List(elements)) <==>
              j.Array? && ReadElements(ElementKinds(elements), j.items) == Some(elements)
  {
  }

  lemma {:induction false} StructReads(entries: seq<Entry>, geometry: bool, j: Json)
    ensures Encode(Struct(entries), geometry) == Ok(j) <==> j.Object? && EncodeEntries(entries) == Ok(j.fields)
    ensures ReadAs(KindOf(Struct(entries), geometry), j) == Some(Struct(entries)) <==>
              j.Object? && ReadEntries(EntryKinds(entries), j.fields) == Some(entries)
  {
    var v := Struct(entries);
    assert KindOf(v, geometry) == StructOf(EntryKinds(entries));
    if j.Object? {
      var read := ReadEntries(EntryKinds(entries), j.fields);
      assert ReadAs(StructOf(EntryKinds(entries)), j) == if read.Some? then Some(Struct(read.value)) else None;
      assert j == Object(j.fields);
    }
  }

  lemma {:induction false} UnsupportedReadsNothing(typeName: string, geometry: bool, j: Json)
    ensures Encode(Unsupported(typeName), geometry).Err? && ReadAs(KindOf(Unsupported(typeName), geometry), j).None?
  {
  }

  /**
   JSON is the encoding of a value if and only if it reads as that value: nulls, booleans, texts and safe
   integers as themselves, larger integers and floats that are not finite from strings, raw values as
   summaries of their type and length, containers part by part, structs under their keys.
   */
  lemma {:induction false} ReadsExactlyWhen(v: Value, geometry: bool, j: Json)
    ensures Encode(v, geometry) == Ok(j) <==> ReadAs(KindOf(v, geometry), j) == Some(v)
    decreases v, 1
  {
    match v
    case List(elements) =>
      if j.Array? {
        ElementsReadExactlyWhen(elements, j.items);
      }
      ListReads(elements, geometry, j);
    case Struct(entries) =>
      if j.Object? {
        EntriesReadExactlyWhen(entries, j.fields);
      }
      StructReads(entries, geometry, j);
    case Unsupported(_) => UnsupportedReadsNothing(v.typeName, geometry, j);
    case _ => ScalarReadsExactlyWhen(v, geometry, j);
  }

  // ---------- when a value has no encoding ----------

  /** What is wrong inside a value, in the order in which it is come across; a bad key hides its value. */
  function Problems(v: Value): seq<EncodeError>
    decreases v, 1
  {
    match v
    case List(elements) => ElementProblems(elements)
    case Struct(entries) => EntriesProblems(entries)
    case Unsupported(typeName) => [UnsupportedType(typeName)]
    case _ => []
  }

  function ElementProblems(elements: seq<Value>): seq<EncodeError>
    decreases elements, 0
  {
    if elements == [] then []
    else ElementProblems(elements[..|elements| - 1]) + Problems(elements[|elements| - 1])
  }

  function EntryProblems(entry: Entry): seq<EncodeError>
    decreases entry, 2
  {
    if entry.key.Other? then [StructKeyNotString] else Problems(entry.value)
  }

  function EntriesProblems(entries: seq<Entry>): seq<EncodeError>
    decreases entries, 0
  {
    if entries == [] then []
    else EntriesProblems(entries[..|entries| - 1]) + EntryProblems(entries[|entries| - 1])
  }

  /** It fails with the first of the problems, if there is one. */
  ghost predicate FailsFirstOf<T>(encoded: Result<T, EncodeError>, problems: seq<EncodeError>) {
    if problems == [] then encoded.Ok? else encoded == Err(problems[0])
  }

  lemma {:induction false} ElementsFailExactlyWhen(elements: seq<Value>)
    ensures FailsFirstOf(EncodeElements(elements), ElementProblems(elements))
    decreases elements, 0
  {
    if elements != [] {
      ElementsFailExactlyWhen(elements[..|elements| - 1]);
      FailsExactlyWhen(elements[|elements| - 1], false);
    }
  }

  lemma {:induction false} EntryFailsExactlyWhen(entry: Entry)
    ensures FailsFirstOf(FieldOf(entry.key, EncodeItem(entry)), EntryProblems(entry))
    decreases entry, 2
  {
    FailsExactlyWhen(entry.value, false);
  }

  lemma {:induction false} EntriesFailExactlyWhen(entries: seq<Entry>)
    ensures FailsFirstOf(EncodeEntries(entries), EntriesProblems(entries))
    decreases entries, 0
  {
    if entries != [] {
      EntriesFailExactlyWhen(entries[..|entries| - 1]);
      EntryFailsExactlyWhen(entries[|entries| - 1]);
    }
  }

  /** A value has an encoding exactly when nothing inside is wrong; otherwise the first problem is the error. */
  lemma {:induction false} FailsExactlyWhen(v: Value, geometry: bool)
    ensures FailsFirstOf(Encode(v, geometry), Problems(v))
    decreases v, 1
  {
    match v
    case List(elements) => ElementsFailExactlyWhen(elements);
    case Struct(entries) => EntriesFailExactlyWhen(entries);
    case _ =>
  }

  // ---------- from the printed text ----------

  lemma {:induction false} ElementsHaveNumerals(elements: seq<Value>)
    requires EncodeElements(elements).Ok?
    ensures forall i :: 0 <= i < |EncodeElements(elements).value| ==> HasNumerals(EncodeElements(elements).value[i])
    decreases elements, 0
  {
    if elements != [] {
      ElementsHaveNumerals(elements[..|elements| - 1]);
      EncodedHasNumerals(elements[|elements| - 1], false);
    }
  }

  lemma {:induction false} EntryHasNumerals(entry: Entry)
    requires EncodeItem(entry).Ok?
    ensures HasNumerals(EncodeItem(entry).value)
    decreases entry, 2
  {
    EncodedHasNumerals(entry.value, false);
  }

  lemma {:induction false} EntriesHaveNumerals(entries: seq<Entry>)
    requires EncodeEntries(entries).Ok?
    ensures forall i :: 0 <= i < |EncodeEntries(entries).value| ==>
              HasNumerals(EncodeEntries(entries).value[i].value)
    decreases entries, 0
  {
    if entries != [] {
      EntriesHaveNumerals(entries[..|entries| - 1]);
      if entries[|entries| - 1].key.Name? {
        EntryHasNumerals(entries[|entries| - 1]);
      }
    }
  }

  lemma {:induction false} DecimalIsNumeral(n: int)
    ensures IsNumeral(Decimal(n))
  {
    DigitsAreDigits(if n < 0 then -n else n);
  }

  lemma {:induction false} SummaryHasNumerals(kind: string, n: nat)
    ensures HasNumerals(Summary(kind, n))
  {
    DecimalIsNumeral(n);
  }

  lemma {:induction false} EncodedHasNumerals(v: Value, geometry: bool)
    requires Encode(v, geometry).Ok?
    ensures HasNumerals(Encode(v, geometry).value)
    decreases v, 1
  {
    match v
    case List(elements) => ElementsHaveNumerals(elements);
    case Struct(entries) => EntriesHaveNumerals(entries);
    case Integer(n) => DecimalIsNumeral(n);
    case Binary(n) => SummaryHasNumerals(if geometry then "geometry" else "binary", n);
    case _ =>
  }

  /** The bytes of a printed encoding, decoded, parsed and read by kind, give the value back. */
  lemma {:induction false} ValueRoundTrip(v: Value, geometry: bool)
    requires Problems(v) == []
    ensures Encode(v, geometry).Ok?
    ensures var bytes := Utf8(Print(Encode(v, geometry).value));
            && FromUtf8(bytes).Some? && ReadJson(FromUtf8(bytes).value).Some?
            && ReadAs(KindOf(v, geometry), ReadJson(FromUtf8(bytes).value).value) == Some(v)
  {
    FailsExactlyWhen(v, geometry);
    var j := Encode(v, geometry).value;
    EncodedHasNumerals(v, geometry);
    PrintReadsBack(j);
    Utf8RoundTrip(Print(j));
    ReadsExactlyWhen(v, geometry, j);
  }
}
