/**
 Pages of a result: cells replaced by summaries when too large, rows taken while the compact array of
 them stays within the byte budget, and the paging a caller does by following the next offset.
 */
module Paging {
  import opened Wrappers
  import opened Json
  import opened Serialization
  import opened Text

  datatype Column = Column(name: string, geometry: bool)

  datatype RowError = CellLimitNotPositive | WidthMismatch | CellFails(error: EncodeError)

  datatype PageError = InvalidArgument | RowFails(error: RowError) | RowTooLarge | OffsetLimit

  datatype Settings = Settings(columns: seq<Column>, maxCell: int, budget: int, limit: int) {
    predicate Valid() {
      limit >= 1 && budget >= 1
    }
  }

  // ---------- cells and rows ----------

  /** A cell that prints too long becomes a summary of its size: of the raw text for a string. */
  function EncodeCell(v: Value, geometry: bool, maxCell: int): Result<Json, RowError> {
    if maxCell < 1 then Err(CellLimitNotPositive)
    else
      match Encode(v, geometry)
      case Err(e) => Err(CellFails(e))
      case Ok(j) =>
        if Size(j) > maxCell then Ok(Summary("truncated", if v.Text? then ByteLength(v.s) else Size(j))) else Ok(j)
  }

  lemma {:induction false} SummarySize(kind: string, number: string)
    ensures var k, n := Field("$type", Str(kind)), Field("byte_length", Number(number));
            Size(Object([k, n])) == QuotedSize(k.name) + Size(k.value) + QuotedSize(n.name) + Size(n.value) + 5
  {
    var k, n := Field("$type", Str(kind)), Field("byte_length", Number(number));
    assert [] + [k] == [k] && [k] + [n] == [k, n];
    FieldsGrow([], k);
    FieldsGrow([k], n);
  }

  /** How long a summary prints: 36 bytes around the number. */
  lemma {:induction false} TruncatedSize(n: nat)
    ensures Size(Summary("truncated", n)) == 36 + |Digits(n)|
  {
    SummarySize("truncated", Decimal(n));
    PlainSize("$type");
    PlainSize("truncated");
    PlainSize("byte_length");
    DecimalIsAscii(n);
    AsciiLength(Decimal(n));
  }

  /** Plain letters print as themselves. */
  lemma {:induction false} PlainSize(s: string)
    requires forall i :: 0 <= i < |s| ==> ' ' <= s[i] < 128 as char && s[i] != '\"' && s[i] != '\\'
    ensures CharsSize(s) == |s|
  {
    if s != "" {
      PlainSize(s[..|s| - 1]);
    }
  }

  /**
   An encoded cell is exact when its printing fits the limit, and otherwise a summary that tells the
   bytes of the text itself, or of the printing for anything but a text. It fails when encoding does.
   */
  lemma {:induction false} CellIsExactOrSummary(v: Value, geometry: bool, maxCell: int)
    requires maxCell >= 1 && Encode(v, geometry).Ok?
    ensures EncodeCell(v, geometry, maxCell).Ok?
    ensures var exact, cell := Encode(v, geometry).value, EncodeCell(v, geometry, maxCell).value;
            if |Utf8(Print(exact))| <= maxCell then cell == exact
            else
              var n := if v.Text? then |Utf8(v.s)| else |Utf8(Print(exact))|;
              cell == Summary("truncated", n) && |Utf8(Print(cell))| == 36 + |Digits(n)|
  {
    var exact, cell := Encode(v, geometry).value, EncodeCell(v, geometry, maxCell).value;
    SizeIsPrintedBytes(exact);
    SizeIsPrintedBytes(cell);
    if v.Text? {
      Utf8Length(v.s);
    }
    TruncatedSize(if v.Text? then ByteLength(v.s) else Size(exact));
  }

  /** Assignment to a dictionary: a repeated name keeps its place and takes the new value. */
  function Assign(fields: seq<Field>, name: string, value: Json): seq<Field> {
    if fields == [] then [Field(name, value)]
    else if fields[0].name == name then [Field(name, value)] + fields[1..]
    else [fields[0]] + Assign(fields[1..], name, value)
  }

  function EncodeCells(columns: seq<Column>, row: seq<Value>, maxCell: int): Result<seq<Field>, RowError>
    requires |row| == |columns|
  {
    if columns == [] then Ok([])
    else
      var n := |columns| - 1;
      var front := EncodeCells(columns[..n], row[..n], maxCell);
      if front.Err? then front
      else
        var cell := EncodeCell(row[n], columns[n].geometry, maxCell);
        if cell.Ok? then Ok(Assign(front.value, columns[n].name, cell.value)) else Err(cell.error)
  }

  function EncodeRow(s: Settings, row: seq<Value>): Result<Json, RowError> {
    if |row| != |s.columns| then Err(WidthMismatch)
    else
      var fields := EncodeCells(s.columns, row, s.maxCell);
      if fields.Ok? then Ok(Object(fields.value)) else Err(fields.error)
  }

  // ---------- rows are dictionaries ----------

  predicate IsFirst(names: seq<string>, k: nat, name: string) {
    k < |names| && names[k] == name && forall m :: 0 <= m < k ==> names[m] != name
  }

  predicate IsLast(names: seq<string>, k: nat, name: string) {
    k < |names| && names[k] == name && forall m :: k < m < |names| ==> names[m] != name
  }

  /** The fields stand in the order in which their names first occur. */
  ghost predicate InFirstOrder(names: seq<string>, fields: seq<Field>, firsts: seq<nat>) {
    && |firsts| == |fields| && (forall i, j :: 0 <= i < j < |firsts| ==> firsts[i] < firsts[j])
    && (forall i :: 0 <= i < |fields| ==> IsFirst(names, firsts[i], fields[i].name))
  }

  /** Each field has the cell of the last column of its name. */
  ghost predicate WithLastCells(names: seq<string>, cells: seq<Json>, fields: seq<Field>, lasts: seq<nat>) {
    && |cells| == |names| && |lasts| == |fields|
    && (forall i :: 0 <= i < |fields| ==> IsLast(names, lasts[i], fields[i].name))
    && (forall i :: 0 <= i < |fields| ==> cells[lasts[i]] == fields[i].value)
  }

  ghost predicate HasName(fields: seq<Field>, name: string) {
    exists i :: 0 <= i < |fields| && fields[i].name == name
  }

  ghost predicate HasNames(names: seq<string>, fields: seq<Field>) {
    forall k :: 0 <= k < |names| ==> HasName(fields, names[k])
  }

  ghost predicate Describes(names: seq<string>, cells: seq<Json>, fields: seq<Field>, firsts: seq<nat>,
      lasts: seq<nat>)
  {
    InFirstOrder(names, fields, firsts) && WithLastCells(names, cells, fields, lasts) && HasNames(names, fields)
  }

  lemma {:induction false} FirstsDiffer(names: seq<string>, fields: seq<Field>, firsts: seq<nat>)
    requires InFirstOrder(names, fields, firsts)
    ensures forall i, j :: 0 <= i < j < |fields| ==> fields[i].name != fields[j].name
  {
    forall i, j | 0 <= i < j < |fields| ensures fields[i].name != fields[j].name {
      assert IsFirst(names, firsts[i], fields[i].name) && IsFirst(names, firsts[j], fields[j].name);
    }
  }

  /** An assignment changes the first field of its name, or adds one at the end. */
  lemma {:induction false} Assigned(fields: seq<Field>, name: string, value: Json) returns (i: nat)
    ensures i <= |fields| && (forall k :: 0 <= k < i ==> fields[k].name != name)
    ensures if i < |fields| then fields[i].name == name
              && Assign(fields, name, value) == fields[i := Field(name, value)]
            else Assign(fields, name, value) == fields + [Field(name, value)]
  {
    i := 0;
    if fields != [] && fields[0].name != name {
      var first, rest := fields[0], fields[1..];
      i := Assigned(rest, name, value);
      assert [first] + rest == fields && Assign(fields, name, value) == [first] + Assign(rest, name, value);
      if i < |rest| {
        assert [first] + rest[i := Field(name, value)] == fields[i + 1 := Field(name, value)];
      }
      i := i + 1;
    }
  }

  lemma {:induction false} NamesStay(names: seq<string>, name: string, before: seq<Field>, after: seq<Field>)
    requires HasNames(names, before) && |before| <= |after| && HasName(after, name)
    requires forall i :: 0 <= i < |before| ==> after[i].name == before[i].name
    ensures HasNames(names + [name], after)
  {
    forall k | 0 <= k < |names| ensures HasName(after, names[k]) {
      var i :| 0 <= i < |before| && before[i].name == names[k];
      assert after[i].name == names[k];
    }
  }

  lemma {:induction false} FieldReplaced(names: seq<string>, cells: seq<Json>, fields: seq<Field>, firsts: seq<nat>,
      lasts: seq<nat>, i: nat, value: Json)
    requires Describes(names, cells, fields, firsts, lasts) && i < |fields|
    ensures var after := fields[i := Field(fields[i].name, value)];
            Describes(names + [fields[i].name], cells + [value], after, firsts, lasts[i := |names|])
  {
    FirstsDiffer(names, fields, firsts);
    var name := fields[i].name;
    var after := fields[i := Field(name, value)];
    assert after[i].name == name;
    NamesStay(names, name, fields, after);
    assert InFirstOrder(names + [name], after, firsts) by {
      forall k | 0 <= k < |after| ensures IsFirst(names + [name], firsts[k], after[k].name) {
        assert IsFirst(names, firsts[k], fields[k].name);
      }
    }
    forall k | 0 <= k < |after| ensures IsLast(names + [name], lasts[i := |names|][k], after[k].name) {
      assert IsLast(names, lasts[k], fields[k].name);
    }
  }

  lemma {:induction false} FieldAdded(names: seq<string>, cells: seq<Json>, fields: seq<Field>, firsts: seq<nat>,
      lasts: seq<nat>, name: string, value: Json)
    requires Describes(names, cells, fields, firsts, lasts) && forall k :: 0 <= k < |fields| ==> fields[k].name != name
    ensures Describes(names + [name], cells + [value], fields + [Field(name, value)], firsts + [|names|],
                      lasts + [|names|])
  {
    var after := fields + [Field(name, value)];
    assert after[|fields|].name == name;
    NamesStay(names, name, fields, after);
    forall m | 0 <= m < |names| ensures names[m] != name {
      assert HasName(fields, names[m]);
    }
    forall k | 0 <= k < |fields|
      ensures IsFirst(names + [name], firsts[k], after[k].name) && IsLast(names + [name], lasts[k], after[k].name)
    {
      assert IsFirst(names, firsts[k], fields[k].name) && IsLast(names, lasts[k], fields[k].name);
    }
  }

  function Names(columns: seq<Column>): (names: seq<string>)
    ensures |names| == |columns| && forall k :: 0 <= k < |columns| ==> names[k] == columns[k].name
  {
    seq(|columns|, k requires 0 <= k < |columns| => columns[k].name)
  }

  /** The encodings of the cells of a row, before they meet in its dictionary. */
  ghost predicate AreCells(columns: seq<Column>, row: seq<Value>, maxCell: int, cells: seq<Json>) {
    && |row| == |columns| == |cells|
    && forall k :: 0 <= k < |cells| ==> EncodeCell(row[k], columns[k].geometry, maxCell) == Ok(cells[k])
  }

  lemma {:induction false} AssignmentIsDescribed(names: seq<string>, cells: seq<Json>, fields: seq<Field>,
      firsts: seq<nat>, lasts: seq<nat>, name: string, value: Json)
      returns (newFirsts: seq<nat>, newLasts: seq<nat>)
    requires Describes(names, cells, fields, firsts, lasts)
    ensures Describes(names + [name], cells + [value], Assign(fields, name, value), newFirsts, newLasts)
  {
    var i := Assigned(fields, name, value);
    if i < |fields| {
      FieldReplaced(names, cells, fields, firsts, lasts, i, value);
      newFirsts, newLasts := firsts, lasts[i := |names|];
    } else {
      FieldAdded(names, cells, fields, firsts, lasts, name, value);
      newFirsts, newLasts := firsts + [|names|], lasts + [|names|];
    }
  }

  lemma {:induction false} LastCell(columns: seq<Column>, row: seq<Value>, maxCell: int, cells: seq<Json>)
      returns (value: Json)
    requires columns != [] && |row| == |columns| && EncodeCells(columns, row, maxCell).Ok?
    requires AreCells(columns[..|columns| - 1], row[..|columns| - 1], maxCell, cells)
    ensures var n := |columns| - 1;
            && EncodeCells(columns[..n], row[..n], maxCell).Ok?
            && EncodeCells(columns, row, maxCell).value ==
                 Assign(EncodeCells(columns[..n], row[..n], maxCell).value, columns[n].name, value)
    ensures AreCells(columns, row, maxCell, cells + [value])
  {
    var n := |columns| - 1;
    var cell := EncodeCell(row[n], columns[n].geometry, maxCell);
    value := cell.value;
    forall k | 0 <= k < |columns| ensures EncodeCell(row[k], columns[k].geometry, maxCell) == Ok((cells + [value])[k]) {
      assert k < n ==> columns[..n][k] == columns[k] && row[..n][k] == row[k];
    }
  }

  lemma {:induction false} NamesGrow(columns: seq<Column>)
    requires columns != []
    ensures Names(columns) == Names(columns[..|columns| - 1]) + [columns[|columns| - 1].name]
  {
  }

  lemma {:induction false} FrontEncodes(columns: seq<Column>, row: seq<Value>, maxCell: int)
    requires columns != [] && |row| == |columns| && EncodeCells(columns, row, maxCell).Ok?
    ensures EncodeCells(columns[..|columns| - 1], row[..|columns| - 1], maxCell).Ok?
  {
  }

  lemma {:induction false} NoCellsAreDescribed(row: seq<Value>, maxCell: int)
    requires row == []
    ensures EncodeCells([], row, maxCell) == Ok([]) && AreCells([], row, maxCell, [])
    ensures Describes(Names([]), [], [], [], [])
  {
  }

  lemma {:induction false} CellsAreDescribed(columns: seq<Column>, row: seq<Value>, maxCell: int, fields: seq<Field>)
      returns (cells: seq<Json>, firsts: seq<nat>, lasts: seq<nat>)
    requires |row| == |columns| && EncodeCells(columns, row, maxCell) == Ok(fields)
    ensures AreCells(columns, row, maxCell, cells) && Describes(Names(columns), cells, fields, firsts, lasts)
    decreases |columns|
  {
    if columns == [] {
      NoCellsAreDescribed(row, maxCell);
      cells, firsts, lasts := [], [], [];
    } else {
      var n := |columns| - 1;
      FrontEncodes(columns, row, maxCell);
      var front := EncodeCells(columns[..n], row[..n], maxCell).value;
      cells, firsts, lasts := CellsAreDescribed(columns[..n], row[..n], maxCell, front);
      var value := LastCell(columns, row, maxCell, cells);
      NamesGrow(columns);
      firsts, lasts :=
        AssignmentIsDescribed(Names(columns[..n]), cells, front, firsts, lasts, columns[n].name, value);
      cells := cells + [value];
    }
  }

  /**
   An encoded row has one field for each name among its columns, with the cell of the last column of that
   name, and the fields stand in the order in which the names first occur.
   */
  lemma {:induction false} RowIsADictionary(s: Settings, row: seq<Value>)
      returns (cells: seq<Json>, firsts: seq<nat>, lasts: seq<nat>)
    requires EncodeRow(s, row).Ok?
    ensures AreCells(s.columns, row, s.maxCell, cells) && EncodeRow(s, row).value.Object?
    ensures var fields := EncodeRow(s, row).value.fields;
            && Describes(Names(s.columns), cells, fields, firsts, lasts)
            && forall i, j :: 0 <= i < j < |fields| ==> fields[i].name != fields[j].name
  {
    var fields := EncodeRow(s, row).value.fields;
    cells, firsts, lasts := CellsAreDescribed(s.columns, row, s.maxCell, fields);
    FirstsDiffer(Names(s.columns), fields, firsts);
  }

  // ---------- pages ----------

  /** The compact array of these rows, printed, stays within the budget, its brackets aside. */
  predicate Fits(s: Settings, rows: seq<Json>) {
    Size(Array(rows)) <= s.budget + 2
  }

  /** Rows are added while there are any, the limit is not reached, and the array of them fits. */
  function Fill(s: Settings, rows: seq<seq<Value>>, page: seq<Json>): Result<seq<Json>, PageError>
    decreases |rows|
  {
    if rows == [] || |page| >= s.limit then Ok(page)
    else
      match EncodeRow(s, rows[0])
      case Err(e) => Err(RowFails(e))
      case Ok(r) =>
        if Fits(s, page + [r]) then Fill(s, rows[1..], page + [r])
        else if page == [] then Err(RowTooLarge)
        else Ok(page)
  }

  datatype Page = Page(rows: seq<Json>, hasMore: bool, nextOffset: Option<nat>, truncated: bool)

  function PageOf(s: Settings, rows: seq<seq<Value>>, offset: int): Result<Page, PageError> {
    if !s.Valid() || offset < 0 then Err(InvalidArgument)
    else
      match Fill(s, rows, [])
      case Err(e) => Err(e)
      case Ok(page) =>
        var hasMore := |page| < |rows|;
        Ok(Page(page, hasMore, if hasMore then Some(offset + |page|) else None, hasMore && |page| < s.limit))
  }

  // ---------- the code ----------

  method CellWithin(v: Value, geometry: bool, maxCell: int) returns (cell: Result<Json, RowError>)
    ensures cell == EncodeCell(v, geometry, maxCell)
  {
    if maxCell < 1 {
      return Err(CellLimitNotPositive);
    }
    var size := EncodedJsonSize(v, geometry);
    if size.Err? {
      return Err(CellFails(size.error));
    }
    if size.value > maxCell {
      return Ok(Summary("truncated", if v.Text? then ByteLength(v.s) else size.value));
    }
    cell := Ok(Encode(v, geometry).value);
  }

  lemma {:induction false} ErrorInFirstCellsDecides(columns: seq<Column>, row: seq<Value>, maxCell: int, i: nat)
    requires |row| == |columns| && i <= |columns| && EncodeCells(columns[..i], row[..i], maxCell).Err?
    ensures EncodeCells(columns, row, maxCell) == EncodeCells(columns[..i], row[..i], maxCell)
    decreases |columns|
  {
    if i < |columns| {
      var n := |columns| - 1;
      assert columns[..n][..i] == columns[..i] && row[..n][..i] == row[..i];
      ErrorInFirstCellsDecides(columns[..n], row[..n], maxCell, i);
    } else {
      assert columns[..i] == columns && row[..i] == row;
    }
  }

  lemma {:induction false} NextCell(columns: seq<Column>, row: seq<Value>, maxCell: int, i: nat, fields: seq<Field>)
    requires |row| == |columns| && i < |columns| && EncodeCells(columns[..i], row[..i], maxCell) == Ok(fields)
    ensures EncodeCells(columns[..i + 1], row[..i + 1], maxCell) ==
            match EncodeCell(row[i], columns[i].geometry, maxCell)
            case Ok(j) => Ok(Assign(fields, columns[i].name, j))
            case Err(e) => Err(e)
  {
    assert columns[..i + 1][..i] == columns[..i] && row[..i + 1][..i] == row[..i];
  }

  /** One row as a dictionary of its cells, filled column by column. */
  method RowWithin(s: Settings, row: seq<Value>) returns (encoded: Result<Json, RowError>)
    ensures encoded == EncodeRow(s, row)
  {
    if |row| != |s.columns| {
      return Err(WidthMismatch);
    }
    var fields: seq<Field> := [];
    for i := 0 to |row|
      invariant EncodeCells(s.columns[..i], row[..i], s.maxCell) == Ok(fields)
    {
      NextCell(s.columns, row, s.maxCell, i, fields);
      var cell := CellWithin(row[i], s.columns[i].geometry, s.maxCell);
      if cell.Err? {
        ErrorInFirstCellsDecides(s.columns, row, s.maxCell, i + 1);
        return Err(cell.error);
      }
      fields := Assign(fields, s.columns[i].name, cell.value);
    }
    assert s.columns[..|row|] == s.columns && row[..|row|] == row;
    encoded := Ok(Object(fields));
  }

  lemma {:induction false} FillNext(s: Settings, rows: seq<seq<Value>>, i: nat, page: seq<Json>)
    requires i < |rows| && |page| < s.limit
    ensures Fill(s, rows[i..], page) ==
            match EncodeRow(s, rows[i])
            case Err(e) => Err(RowFails(e))
            case Ok(r) =>
              if Fits(s, page + [r]) then Fill(s, rows[i + 1..], page + [r])
              else if page == [] then Err(RowTooLarge)
              else Ok(page)
  {
    assert rows[i..][1..] == rows[i + 1..];
  }

  /** Whether one more row fits, by the byte count alone: the counter leaves out the brackets of the array. */
  method Admit(s: Settings, page: seq<Json>, used: int, r: Json) returns (fits: bool, after: int)
    requires used + 2 == Size(Array(page))
    ensures fits == Fits(s, page + [r]) && after + 2 == Size(Array(page + [r]))
  {
    var separator := if page != [] then 1 else 0;
    after := used + separator + Size(r);
    fits := after <= s.budget;
    ItemsGrow(page, r);
  }

  /**
   One page of the fetched rows, by a running byte count that never prints the whole array. The loop
   ends at the budget, at the row beyond the limit, or with the rows.
   */
  method SerializeRows(s: Settings, rows: seq<seq<Value>>, offset: int) returns (result: Result<Page, PageError>)
    ensures result == PageOf(s, rows, offset)
  {
    if s.limit < 1 || offset < 0 || s.budget < 1 {
      return Err(InvalidArgument);
    }
    var page: seq<Json> := [];
    var used := 0;
    var truncated, extra := false, false;
    ghost var filled := Fill(s, rows, []);
    assert rows[0..] == rows;
    var i := 0;
    while i < |rows|
      invariant 0 <= i <= |rows| && |page| == i <= s.limit
      invariant used + 2 == Size(Array(page))
      invariant filled == Fill(s, rows[i..], page)
    {
      if i >= s.limit {
        extra := true;
        break;
      }
      FillNext(s, rows, i, page);
      var encoded := RowWithin(s, rows[i]);
      if encoded.Err? {
        return Err(RowFails(encoded.error));
      }
      var fits, after := Admit(s, page, used, encoded.value);
      if !fits {
        if page == [] {
          return Err(RowTooLarge);
        }
        truncated := true;
        break;
      }
      page := page + [encoded.value];
      used := after;
      i := i + 1;
    }
    var hasMore := truncated || extra;
    result := Ok(Page(page, hasMore, if hasMore then Some(offset + |page|) else None, truncated));
  }

  // ---------- what a page promises ----------

  ghost predicate EncodesFrom(s: Settings, rows: seq<seq<Value>>, start: nat, page: seq<Json>) {
    && start + |page| <= |rows|
    && forall i :: 0 <= i < |page| ==> EncodeRow(s, rows[start + i]) == Ok(page[i])
  }

  /** This row encodes, but its encoding alone is over the budget. */
  ghost predicate Oversized(s: Settings, row: seq<Value>) {
    EncodeRow(s, row).Ok? && !Fits(s, [EncodeRow(s, row).value])
  }

  lemma {:induction false} PrefixFits(s: Settings, page: seq<Json>, r: Json)
    requires Fits(s, page + [r])
    ensures Fits(s, page) && Fits(s, [r])
  {
    ItemsGrow(page, r);
    ItemsGrow([], r);
    assert [] + [r] == [r];
  }

  lemma {:induction false} EachFits(s: Settings, page: seq<Json>, i: nat)
    requires i < |page| && Fits(s, page)
    ensures Fits(s, [page[i]])
    decreases |page|
  {
    var front, last := page[..|page| - 1], page[|page| - 1];
    assert page == front + [last];
    PrefixFits(s, front, last);
    if i < |front| {
      EachFits(s, front, i);
    }
  }

  /** How filling ends, whatever was on the page before. */
  ghost predicate FilledTo(s: Settings, rows: seq<seq<Value>>, before: nat, result: Result<seq<Json>, PageError>) {
    match result
    case Ok(page) =>
      && EncodesFrom(s, rows, 0, page) && before <= |page| && (|page| <= s.limit || |page| == before)
           && (page != [] ==> Fits(s, page))
      && (|page| < |rows| && |page| < s.limit ==>
            && page != [] && EncodeRow(s, rows[|page|]).Ok? && !Fits(s, page + [EncodeRow(s, rows[|page|]).value]))
    case Err(RowTooLarge) => before == 0 < |rows| && Oversized(s, rows[0])
    case Err(RowFails(e)) => exists k :: FailsFirst(s, rows, before, k, e)
    case Err(_) => false
  }

  ghost predicate FailsFirst(s: Settings, rows: seq<seq<Value>>, start: nat, k: int, e: RowError) {
    && start <= k < |rows| && k < s.limit && EncodeRow(s, rows[k]) == Err(e)
    && forall i :: 0 <= i < k ==> EncodeRow(s, rows[i]).Ok?
  }

  lemma {:induction false} OneMoreEncodes(s: Settings, rows: seq<seq<Value>>, start: nat, page: seq<Json>, r: Json)
    requires EncodesFrom(s, rows, start, page) && start + |page| < |rows| && EncodeRow(s, rows[start + |page|]) == Ok(r)
    ensures EncodesFrom(s, rows, start, page + [r])
  {
  }

  lemma {:induction false} FailsAt(s: Settings, rows: seq<seq<Value>>, page: seq<Json>, e: RowError)
    requires EncodesFrom(s, rows, 0, page) && |page| < |rows| && |page| < s.limit
               && EncodeRow(s, rows[|page|]) == Err(e)
    ensures FailsFirst(s, rows, |page|, |page|, e)
  {
    forall i | 0 <= i < |page| ensures EncodeRow(s, rows[i]).Ok? {
      assert EncodeRow(s, rows[0 + i]) == Ok(page[i]);
    }
  }

  lemma {:induction false} FilledFromEarlier(s: Settings, rows: seq<seq<Value>>, n: nat,
      result: Result<seq<Json>, PageError>)
    requires FilledTo(s, rows, n + 1, result) && n < s.limit
    ensures FilledTo(s, rows, n, result)
  {
    if result.Err? && result.error.RowFails? {
      var k :| FailsFirst(s, rows, n + 1, k, result.error.error);
      assert FailsFirst(s, rows, n, k, result.error.error);
    }
  }

  lemma {:induction false} FillFills(s: Settings, rows: seq<seq<Value>>, page: seq<Json>)
    requires s.Valid() && EncodesFrom(s, rows, 0, page) && (page != [] ==> Fits(s, page))
    ensures FilledTo(s, rows, |page|, Fill(s, rows[|page|..], page))
    decreases |rows| - |page|
  {
    var n := |page|;
    if n < |rows| && n < s.limit {
      var encoded := EncodeRow(s, rows[n]);
      if encoded.Err? {
        FailsAt(s, rows, page, encoded.error);
      } else if Fits(s, page + [encoded.value]) {
        OneMoreEncodes(s, rows, 0, page, encoded.value);
        assert rows[n..][1..] == rows[n + 1..];
        FillFills(s, rows, page + [encoded.value]);
        FilledFromEarlier(s, rows, n, Fill(s, rows[n + 1..], page + [encoded.value]));
      } else if page == [] {
        assert [] + [encoded.value] == [encoded.value];
      }
    }
  }

  /**
   A page is the longest prefix of the fetched rows, up to the limit, whose compact array fits the
   budget; the page has more exactly when a fetched row is left over, and then it is not empty.
   */
  lemma {:induction false} PageIsLongestFittingPrefix(s: Settings, rows: seq<seq<Value>>, offset: nat)
    requires s.Valid()
    ensures match PageOf(s, rows, offset)
            case Ok(p) =>
              && EncodesFrom(s, rows, 0, p.rows) && |p.rows| <= s.limit && (p.rows != [] ==> Fits(s, p.rows))
              && (p.truncated <==> |p.rows| < |rows| && |p.rows| < s.limit)
              && (p.truncated ==>
                    EncodeRow(s, rows[|p.rows|]).Ok? && !Fits(s, p.rows + [EncodeRow(s, rows[|p.rows|]).value]))
              && (p.hasMore <==> |p.rows| < |rows|) && (p.hasMore ==> p.rows != [])
              && p.nextOffset == if p.hasMore then Some(offset + |p.rows|) else None
            case Err(RowTooLarge) => rows != [] && Oversized(s, rows[0])
            case Err(RowFails(e)) => exists k :: FailsFirst(s, rows, 0, k, e)
            case Err(_) => false
  {
    assert rows[0..] == rows;
    FillFills(s, rows, []);
  }

  /** The bytes of a page's printed rows are within the budget, and the two brackets come on top. */
  lemma {:induction false} PageBytesAreBounded(s: Settings, rows: seq<seq<Value>>, offset: nat)
    requires s.Valid() && PageOf(s, rows, offset).Ok?
    ensures |Utf8(Print(Array(PageOf(s, rows, offset).value.rows)))| <= s.budget + 2
  {
    PageIsLongestFittingPrefix(s, rows, offset);
    SizeIsPrintedBytes(Array(PageOf(s, rows, offset).value.rows));
  }

  // ---------- following the next offset ----------

  datatype Outcome = Complete(rows: seq<Json>) | Stopped(rows: seq<Json>, error: PageError)

  function After(first: seq<Json>, rest: Outcome): Outcome {
    match rest
    case Complete(rows) => Complete(first + rows)
    case Stopped(rows, error) => Stopped(first + rows, error)
  }

  /** What a page request fetches of a fixed result: one row more than the limit. */
  function Fetch(result: seq<seq<Value>>, offset: nat, limit: nat): seq<seq<Value>> {
    if offset >= |result| then []
    else if offset + limit + 1 <= |result| then result[offset..offset + limit + 1]
    else result[offset..]
  }

  /** The answer of the service to each offset. */
  function Pages(s: Settings, result: seq<seq<Value>>): nat -> Result<Page, PageError>
    requires s.Valid()
  {
    (offset: nat) => PageOf(s, Fetch(result, offset, s.limit), offset)
  }

  /** A next offset lies ahead, and within the result. */
  ghost predicate Advances(pages: nat -> Result<Page, PageError>, size: nat) {
    forall o: nat :: pages(o).Ok? && pages(o).value.nextOffset.Some? ==> o < pages(o).value.nextOffset.value < size
  }

  /** Requests pages from an offset on until one has no more, is refused, or fails. */
  ghost function Follow(pages: nat -> Result<Page, PageError>, size: nat, maxOffset: nat, offset: nat): Outcome
    requires Advances(pages, size)
    decreases size - offset
  {
    if offset > maxOffset then Stopped([], OffsetLimit)
    else
      match pages(offset)
      case Err(e) => Stopped([], e)
      case Ok(p) =>
        if p.nextOffset.None? then Complete(p.rows)
        else After(p.rows, Follow(pages, size, maxOffset, p.nextOffset.value))
  }

  lemma {:induction false} PagesAdvance(s: Settings, result: seq<seq<Value>>)
    requires s.Valid()
    ensures Advances(Pages(s, result), |result|)
  {
    forall o: nat | Pages(s, result)(o).Ok? && Pages(s, result)(o).value.nextOffset.Some?
      ensures o < Pages(s, result)(o).value.nextOffset.value < |result|
    {
      PageIsLongestFittingPrefix(s, Fetch(result, o, s.limit), o);
    }
  }

  lemma {:induction false} FetchedRows(result: seq<seq<Value>>, offset: nat, limit: nat, i: nat)
    requires i < |Fetch(result, offset, limit)|
    ensures offset + i < |result| && Fetch(result, offset, limit)[i] == result[offset + i]
    ensures |Fetch(result, offset, limit)| <= limit ==> offset + |Fetch(result, offset, limit)| == |result|
  {
  }

  ghost predicate NoneOversized(s: Settings, result: seq<seq<Value>>, start: nat, count: nat) {
    forall i :: start <= i < start + count && i < |result| ==> !Oversized(s, result[i])
  }

  /** A row of the page that begins here fails to encode. */
  ghost predicate PageFails(s: Settings, result: seq<seq<Value>>, start: nat, e: RowError) {
    exists k :: start <= k < |result| && k < start + s.limit && EncodeRow(s, result[k]) == Err(e)
  }

  ghost predicate Reassembles(s: Settings, result: seq<seq<Value>>, maxOffset: nat, offset: nat, out: Outcome) {
    && EncodesFrom(s, result, offset, out.rows)
    && NoneOversized(s, result, offset, |out.rows|)
    && var at := offset + |out.rows|;
       match out
       case Complete(_) => at == |result|
       case Stopped(_, RowTooLarge) => at < |result| && Oversized(s, result[at])
       case Stopped(_, OffsetLimit) => at > maxOffset && (out.rows != [] ==> at < |result|)
       case Stopped(_, RowFails(e)) => PageFails(s, result, at, e)
       case Stopped(_, InvalidArgument) => false
  }

  /** What one page of a longer result means for the result. */
  ghost predicate PageMeans(s: Settings, result: seq<seq<Value>>, offset: nat, page: Result<Page, PageError>) {
    match page
    case Ok(p) =>
      && EncodesFrom(s, result, offset, p.rows) && NoneOversized(s, result, offset, |p.rows|)
      && (if p.nextOffset.Some? then p.rows != [] && p.nextOffset.value == offset + |p.rows| < |result|
          else offset + |p.rows| == |result|)
    case Err(RowTooLarge) => offset < |result| && Oversized(s, result[offset])
    case Err(RowFails(e)) => PageFails(s, result, offset, e)
    case Err(_) => false
  }

  lemma {:induction false} PageOfResult(s: Settings, result: seq<seq<Value>>, offset: nat)
    requires s.Valid() && offset <= |result|
    ensures PageMeans(s, result, offset, PageOf(s, Fetch(result, offset, s.limit), offset))
  {
    var fetched := Fetch(result, offset, s.limit);
    PageIsLongestFittingPrefix(s, fetched, offset);
    match PageOf(s, fetched, offset) {
      case Ok(p) =>
        forall i | 0 <= i < |p.rows| ensures Fits(s, [p.rows[i]]) {
          EachFits(s, p.rows, i);
        }
        forall i | offset <= i < offset + |p.rows| ensures !Oversized(s, result[i]) {
          FetchedRows(result, offset, s.limit, i - offset);
          assert EncodeRow(s, fetched[i - offset]) == Ok(p.rows[i - offset]);
        }
      case Err(RowFails(e)) =>
        var k :| FailsFirst(s, fetched, 0, k, e);
        FetchedRows(result, offset, s.limit, k);
        assert EncodeRow(s, result[offset + k]) == Err(e);
      case _ =>
    }
  }

  lemma {:induction false} PageThenRest(s: Settings, result: seq<seq<Value>>, maxOffset: nat, offset: nat,
      page: seq<Json>, rest: Outcome)
    requires EncodesFrom(s, result, offset, page) && NoneOversized(s, result, offset, |page|)
               && offset + |page| < |result|
    requires Reassembles(s, result, maxOffset, offset + |page|, rest)
    ensures Reassembles(s, result, maxOffset, offset, After(page, rest))
  {
    var all, next := page + rest.rows, offset + |page|;
    forall i | 0 <= i < |all| ensures EncodeRow(s, result[offset + i]) == Ok(all[i]) {
      if i >= |page| {
        assert result[offset + i] == result[next + (i - |page|)];
      }
    }
    assert After(page, rest).rows == all;
  }

  lemma {:induction false} LastPage(s: Settings, result: seq<seq<Value>>, maxOffset: nat, offset: nat,
      page: Result<Page, PageError>)
    requires PageMeans(s, result, offset, page) && (page.Ok? ==> page.value.nextOffset.None?)
    ensures Reassembles(s, result, maxOffset, offset,
                        if page.Ok? then Complete(page.value.rows) else Stopped([], page.error))
  {
  }

  lemma {:induction false} FollowedReassembles(s: Settings, result: seq<seq<Value>>,
      pages: nat -> Result<Page, PageError>, maxOffset: nat, offset: nat)
    requires Advances(pages, |result|) && offset <= |result|
    requires forall o: nat :: o <= |result| ==> PageMeans(s, result, o, pages(o))
    ensures Reassembles(s, result, maxOffset, offset, Follow(pages, |result|, maxOffset, offset))
    decreases |result| - offset
  {
    if offset <= maxOffset {
      var page := pages(offset);
      assert PageMeans(s, result, offset, page);
      if page.Ok? && page.value.nextOffset.Some? {
        var next: nat := page.value.nextOffset.value;
        FollowedReassembles(s, result, pages, maxOffset, next);
        PageThenRest(s, result, maxOffset, offset, page.value.rows, Follow(pages, |result|, maxOffset, next));
      } else {
        LastPage(s, result, maxOffset, offset, page);
      }
    }
  }

  /** The paging of a result from its start. */
  ghost function FollowAll(s: Settings, result: seq<seq<Value>>, maxOffset: nat): Outcome
    requires s.Valid()
  {
    PagesAdvance(s, result);
    Follow(Pages(s, result), |result|, maxOffset, 0)
  }

  /**
   Following the next offset ends, and puts the rows together in order, each once: all of them, or the
   ones before the page that stops it. It stops for size exactly at the first row whose own encoding
   exceeds the budget.
   */
  lemma {:induction false} PagingReassembles(s: Settings, result: seq<seq<Value>>, maxOffset: nat)
    requires s.Valid()
    ensures Reassembles(s, result, maxOffset, 0, FollowAll(s, result, maxOffset))
  {
    PagesAdvance(s, result);
    forall o: nat | o <= |result| ensures PageMeans(s, result, o, Pages(s, result)(o)) {
      PageOfResult(s, result, o);
    }
    FollowedReassembles(s, result, Pages(s, result), maxOffset, 0);
  }

  /** When every row encodes and no offset is out of bounds, paging is complete if and only if no row is oversized. */
  lemma {:induction false} PagingIsCompleteExactlyWhen(s: Settings, result: seq<seq<Value>>, maxOffset: nat)
    requires s.Valid() && |result| <= maxOffset + 1
    requires forall i :: 0 <= i < |result| ==> EncodeRow(s, result[i]).Ok?
    ensures var out := FollowAll(s, result, maxOffset);
            && (out.Complete? <==> NoneOversized(s, result, 0, |result|))
            && (out.Complete? ==> |out.rows| == |result| && EncodesFrom(s, result, 0, out.rows))
  {
    PagingReassembles(s, result, maxOffset);
  }
}
