/**
 Cells, rows and pages held against what they read as: each cell tells its value or the length of it, each
 row its cells under the names of the columns, and following the pages the whole result.
 */
module PageReading {
  import opened Wrappers
  import opened Text
  import opened Json
  import opened Serialization
  import opened JsonReading
  import opened ValueReading
  import opened Paging

  function PrintedBytes(j: Json): nat {
    |Utf8(Print(j))|
  }

  // ---------- cells ----------

  /** What stands for an exact encoding: itself within the limit, a summary of its length beyond. */
  ghost predicate Shows(v: Value, exact: Json, maxCell: int, cell: Json) {
    if PrintedBytes(exact) <= maxCell then cell == exact
    else SummaryLength("truncated", cell) == Some(if v.Text? then |Utf8(v.s)| else PrintedBytes(exact))
  }

  /** The cell shows JSON that reads as the value. */
  ghost predicate CellTells(v: Value, geometry: bool, maxCell: int, cell: Json) {
    maxCell >= 1 && exists exact :: ReadAs(KindOf(v, geometry), exact) == Some(v) && Shows(v, exact, maxCell, cell)
  }

  lemma {:induction false} TruncatedExactlyWhen(v: Value, exact: Json, maxCell: int, cell: Json)
    ensures Shows(v, exact, maxCell, cell) <==>
              cell == if Size(exact) > maxCell
                      then Summary("truncated", if v.Text? then ByteLength(v.s) else Size(exact)) else exact
  {
    SizeIsPrintedBytes(exact);
    if v.Text? {
      Utf8Length(v.s);
    }
    SummaryReadsExactlyWhen("truncated", if v.Text? then ByteLength(v.s) else Size(exact), cell);
  }

  /** JSON is the cell of a value if and only if it tells the value: the value itself, or how long it is. */
  lemma {:induction false} CellTellsExactlyWhen(v: Value, geometry: bool, maxCell: int, cell: Json)
    ensures EncodeCell(v, geometry, maxCell) == Ok(cell) <==> CellTells(v, geometry, maxCell, cell)
  {
    if EncodeCell(v, geometry, maxCell) == Ok(cell) {
      var exact := Encode(v, geometry).value;
      ReadsExactlyWhen(v, geometry, exact);
      TruncatedExactlyWhen(v, exact, maxCell, cell);
    }
    if CellTells(v, geometry, maxCell, cell) {
      var exact :| ReadAs(KindOf(v, geometry), exact) == Some(v) && Shows(v, exact, maxCell, cell);
      ReadsExactlyWhen(v, geometry, exact);
      TruncatedExactlyWhen(v, exact, maxCell, cell);
    }
  }

  /** Why a cell fails: a limit that is not positive, or the first problem inside the value. */
  ghost predicate CellFailsWith(v: Value, maxCell: int, e: RowError) {
    if maxCell < 1 then e == CellLimitNotPositive else Problems(v) != [] && e == CellFails(Problems(v)[0])
  }

  lemma {:induction false} CellFailsExactlyWhen(v: Value, geometry: bool, maxCell: int, e: RowError)
    ensures EncodeCell(v, geometry, maxCell) == Err(e) <==> CellFailsWith(v, maxCell, e)
    ensures EncodeCell(v, geometry, maxCell).Ok? <==> maxCell >= 1 && Problems(v) == []
  {
    FailsExactlyWhen(v, geometry);
  }

  // ---------- rows ----------

  /** The names in the row are those of the columns, in the order in which they first occur, each once. */
  ghost predicate NamesTell(names: seq<string>, fields: seq<Field>) {
    && HasNames(names, fields)
    && (forall i :: 0 <= i < |fields| ==> fields[i].name in names)
    && (forall i, j, k: nat, l: nat ::
          0 <= i < j < |fields| && IsFirst(names, k, fields[i].name) && IsFirst(names, l, fields[j].name) ==> k < l)
  }

  /** Under each name stands the cell of the last column of that name. */
  ghost predicate CellsTell(s: Settings, row: seq<Value>, fields: seq<Field>) {
    && |row| == |s.columns|
    && (forall i, k: nat :: 0 <= i < |fields| && IsLast(Names(s.columns), k, fields[i].name) ==>
          CellTells(row[k], s.columns[k].geometry, s.maxCell, fields[i].value))
  }

  ghost predicate RowTells(s: Settings, row: seq<Value>, j: Json) {
    j.Object? && NamesTell(Names(s.columns), j.fields) && CellsTell(s, row, j.fields)
  }

  lemma {:induction false} DescribedNames(names: seq<string>, cells: seq<Json>, fields: seq<Field>,
      firsts: seq<nat>, lasts: seq<nat>)
    requires Describes(names, cells, fields, firsts, lasts)
    ensures NamesTell(names, fields)
  {
    forall i, j, k: nat, l: nat |
        0 <= i < j < |fields| && IsFirst(names, k, fields[i].name) && IsFirst(names, l, fields[j].name)
      ensures k < l
    {
      assert IsFirst(names, firsts[i], fields[i].name) && IsFirst(names, firsts[j], fields[j].name);
      assert k == firsts[i] && l == firsts[j];
    }
    forall i | 0 <= i < |fields| ensures fields[i].name in names {
      assert IsFirst(names, firsts[i], fields[i].name);
    }
  }

  lemma {:induction false} CellIsTold(s: Settings, row: seq<Value>, cells: seq<Json>, k: nat)
    requires AreCells(s.columns, row, s.maxCell, cells) && k < |cells|
    ensures CellTells(row[k], s.columns[k].geometry, s.maxCell, cells[k])
  {
    CellTellsExactlyWhen(row[k], s.columns[k].geometry, s.maxCell, cells[k]);
  }

  lemma {:induction false} DescribedCells(s: Settings, row: seq<Value>, cells: seq<Json>, fields: seq<Field>,
      lasts: seq<nat>)
    requires AreCells(s.columns, row, s.maxCell, cells) && WithLastCells(Names(s.columns), cells, fields, lasts)
    ensures CellsTell(s, row, fields)
  {
    forall i, k: nat | 0 <= i < |fields| && IsLast(Names(s.columns), k, fields[i].name)
      ensures CellTells(row[k], s.columns[k].geometry, s.maxCell, fields[i].value)
    {
      assert IsLast(Names(s.columns), lasts[i], fields[i].name);
      assert k == lasts[i];
      CellIsTold(s, row, cells, k);
    }
  }

  lemma {:induction false} RowIsTold(s: Settings, row: seq<Value>)
    requires EncodeRow(s, row).Ok?
    ensures RowTells(s, row, EncodeRow(s, row).value)
  {
    var cells, firsts, lasts := RowIsADictionary(s, row);
    var fields := EncodeRow(s, row).value.fields;
    DescribedNames(Names(s.columns), cells, fields, firsts, lasts);
    DescribedCells(s, row, cells, fields, lasts);
  }

  ghost predicate CellsEncode(row: seq<Value>, maxCell: int) {
    forall i :: 0 <= i < |row| ==> maxCell >= 1 && Problems(row[i]) == []
  }

  /** The first cell that fails, and why. */
  ghost predicate FirstCellFails(row: seq<Value>, maxCell: int, e: RowError) {
    exists k :: 0 <= k < |row| && CellFailsWith(row[k], maxCell, e) && CellsEncode(row[..k], maxCell)
  }

  ghost predicate RowFailsWith(s: Settings, row: seq<Value>, e: RowError) {
    if |row| != |s.columns| then e == WidthMismatch else FirstCellFails(row, s.maxCell, e)
  }

  lemma {:induction false} FirstFailsInFront(front: seq<Value>, last: Value, maxCell: int, e: RowError)
    ensures FirstCellFails(front + [last], maxCell, e) <==>
              FirstCellFails(front, maxCell, e) || (CellFailsWith(last, maxCell, e) && CellsEncode(front, maxCell))
    ensures CellsEncode(front + [last], maxCell) <==>
              CellsEncode(front, maxCell) && maxCell >= 1 && Problems(last) == []
  {
    var row := front + [last];
    assert row[..|front|] == front && row[|front|] == last;
    forall k | 0 <= k < |front| ensures row[k] == front[k] && row[..k] == front[..k] {
    }
    if CellsEncode(row, maxCell) {
      assert forall i :: 0 <= i < |front| ==> row[i] == front[i];
    }
  }

  lemma {:induction false} CellsFailExactlyWhen(columns: seq<Column>, row: seq<Value>, maxCell: int, e: RowError)
    requires |row| == |columns|
    ensures EncodeCells(columns, row, maxCell) == Err(e) <==> FirstCellFails(row, maxCell, e)
    ensures EncodeCells(columns, row, maxCell).Ok? <==> CellsEncode(row, maxCell)
    decreases |row|
  {
    if columns != [] {
      var n := |columns| - 1;
      CellsFailExactlyWhen(columns[..n], row[..n], maxCell, e);
      CellFailsExactlyWhen(row[n], columns[n].geometry, maxCell, e);
      FirstFailsInFront(row[..n], row[n], maxCell, e);
      assert row[..n] + [row[n]] == row;
    }
  }

  /**
   A row fails with an error if and only if its width is wrong, or some cell is the first to fail and that is
   its error.
   */
  lemma {:induction false} RowFailsExactlyWhen(s: Settings, row: seq<Value>, e: RowError)
    ensures EncodeRow(s, row) == Err(e) <==> RowFailsWith(s, row, e)
  {
    if |row| == |s.columns| {
      CellsFailExactlyWhen(s.columns, row, s.maxCell, e);
    }
  }

  // ---------- pages ----------

  ghost predicate RowsTell(s: Settings, result: seq<seq<Value>>, start: nat, rows: seq<Json>) {
    start + |rows| <= |result| && forall i :: 0 <= i < |rows| ==> RowTells(s, result[start + i], rows[i])
  }

  lemma {:induction false} EncodedRowsTell(s: Settings, result: seq<seq<Value>>, start: nat, rows: seq<Json>)
    requires EncodesFrom(s, result, start, rows)
    ensures RowsTell(s, result, start, rows)
  {
    forall i | 0 <= i < |rows| ensures RowTells(s, result[start + i], rows[i]) {
      assert EncodeRow(s, result[start + i]) == Ok(rows[i]);
      RowIsTold(s, result[start + i]);
    }
  }

  /** Printed together, one more row would exceed the budget: what it tells is too long. */
  ghost predicate NextIsTooLong(s: Settings, rows: seq<seq<Value>>, page: seq<Json>)
    requires |page| < |rows|
  {
    exists j :: RowTells(s, rows[|page|], j) && PrintedBytes(Array(page + [j])) > s.budget + 2
  }

  /** The page's arguments are checked first. */
  lemma {:induction false} RefusedExactlyWhen(s: Settings, rows: seq<seq<Value>>, offset: int)
    ensures PageOf(s, rows, offset) == Err(InvalidArgument) <==> s.limit < 1 || s.budget < 1 || offset < 0
  {
    if s.Valid() && offset >= 0 {
      PageIsLongestFittingPrefix(s, rows, offset);
    }
  }

  /**
   A page tells the first of the fetched rows, in order, within the limit and the budget of bytes; it ends
   before the others for the limit, or because the next row would take it over the budget.
   */
  lemma {:induction false} PageTellsRows(s: Settings, rows: seq<seq<Value>>, offset: nat)
    requires s.Valid() && PageOf(s, rows, offset).Ok?
    ensures var p := PageOf(s, rows, offset).value;
            && RowsTell(s, rows, 0, p.rows) && |p.rows| <= s.limit && PrintedBytes(Array(p.rows)) <= s.budget + 2
            && (|p.rows| < |rows| ==> p.nextOffset == Some(offset + |p.rows|))
            && (|p.rows| == |rows| ==> p.nextOffset == None)
            && (|p.rows| < |rows| && |p.rows| < s.limit ==> p.rows != [] && NextIsTooLong(s, rows, p.rows))
  {
    var p := PageOf(s, rows, offset).value;
    PageIsLongestFittingPrefix(s, rows, offset);
    EncodedRowsTell(s, rows, 0, p.rows);
    SizeIsPrintedBytes(Array(p.rows));
    if |p.rows| < |rows| && |p.rows| < s.limit {
      var j := EncodeRow(s, rows[|p.rows|]).value;
      RowIsTold(s, rows[|p.rows|]);
      SizeIsPrintedBytes(Array(p.rows + [j]));
    }
  }

  /** The row alone would exceed the budget. */
  ghost predicate TooLongAlone(s: Settings, row: seq<Value>) {
    exists j :: RowTells(s, row, j) && PrintedBytes(j) > s.budget
  }

  lemma {:induction false} OversizedIsTooLong(s: Settings, row: seq<Value>)
    requires Oversized(s, row)
    ensures TooLongAlone(s, row)
  {
    var j := EncodeRow(s, row).value;
    RowIsTold(s, row);
    SizeIsPrintedBytes(j);
    ItemsGrow([], j);
    assert [] + [j] == [j];
  }

  /** Some row of the page that begins here fails, with this error. */
  ghost predicate RowFailsFrom(s: Settings, result: seq<seq<Value>>, start: nat, e: RowError) {
    exists k :: start <= k < |result| && k < start + s.limit && RowFailsWith(s, result[k], e)
  }

  /**
   Following the next offset tells the result: row by row, in order, each once. It is complete, or it stops at
   a row too long for any page, at a page with a row that fails, or beyond the last offset allowed.
   */
  lemma {:induction false} PagingTellsResult(s: Settings, result: seq<seq<Value>>, maxOffset: nat)
    requires s.Valid()
    ensures var out := FollowAll(s, result, maxOffset);
            && RowsTell(s, result, 0, out.rows)
            && match out
               case Complete(rows) => |rows| == |result|
               case Stopped(rows, RowTooLarge) => |rows| < |result| && TooLongAlone(s, result[|rows|])
               case Stopped(rows, RowFails(e)) => RowFailsFrom(s, result, |rows|, e)
               case Stopped(rows, OffsetLimit) => |rows| > maxOffset
               case Stopped(_, InvalidArgument) => false
  {
    PagingReassembles(s, result, maxOffset);
    var out := FollowAll(s, result, maxOffset);
    EncodedRowsTell(s, result, 0, out.rows);
    match out
    case Stopped(rows, RowTooLarge) => OversizedIsTooLong(s, result[|rows|]);
    case Stopped(rows, RowFails(e)) =>
      var k :| |rows| <= k < |result| && k < |rows| + s.limit && EncodeRow(s, result[k]) == Err(e);
      RowFailsExactlyWhen(s, result[k], e);
    case _ =>
  }

  // ---------- the printed page ----------

  lemma {:induction false} CellHasNumerals(v: Value, geometry: bool, maxCell: int)
    requires EncodeCell(v, geometry, maxCell).Ok?
    ensures HasNumerals(EncodeCell(v, geometry, maxCell).value)
  {
    EncodedHasNumerals(v, geometry);
    var j := Encode(v, geometry).value;
    SummaryHasNumerals("truncated", if v.Text? then ByteLength(v.s) else Size(j));
  }

  ghost predicate FieldsHaveNumerals(fields: seq<Field>) {
    forall i :: 0 <= i < |fields| ==> HasNumerals(fields[i].value)
  }

  lemma {:induction false} AssignedHasNumerals(fields: seq<Field>, name: string, value: Json)
    requires FieldsHaveNumerals(fields) && HasNumerals(value)
    ensures FieldsHaveNumerals(Assign(fields, name, value))
  {
    var i := Assigned(fields, name, value);
  }

  lemma {:induction false} CellsHaveNumerals(columns: seq<Column>, row: seq<Value>, maxCell: int)
    requires |row| == |columns| && EncodeCells(columns, row, maxCell).Ok?
    ensures FieldsHaveNumerals(EncodeCells(columns, row, maxCell).value)
    decreases |row|
  {
    if columns != [] {
      var n := |columns| - 1;
      CellsHaveNumerals(columns[..n], row[..n], maxCell);
      CellHasNumerals(row[n], columns[n].geometry, maxCell);
      AssignedHasNumerals(EncodeCells(columns[..n], row[..n], maxCell).value, columns[n].name,
                          EncodeCell(row[n], columns[n].geometry, maxCell).value);
    }
  }

  /** The bytes of a printed page, decoded and parsed, are the page. */
  lemma {:induction false} PageRoundTrip(s: Settings, rows: seq<seq<Value>>, offset: nat)
    requires s.Valid() && PageOf(s, rows, offset).Ok?
    ensures var page := Array(PageOf(s, rows, offset).value.rows);
            && FromUtf8(Utf8(Print(page))).Some?
            && ReadJson(FromUtf8(Utf8(Print(page))).value) == Some(page)
  {
    var page := PageOf(s, rows, offset).value.rows;
    PageIsLongestFittingPrefix(s, rows, offset);
    forall i | 0 <= i < |page| ensures HasNumerals(page[i]) {
      assert EncodeRow(s, rows[0 + i]) == Ok(page[i]);
      CellsHaveNumerals(s.columns, rows[i], s.maxCell);
    }
    PrintReadsBack(Array(page));
    Utf8RoundTrip(Print(Array(page)));
  }
}
