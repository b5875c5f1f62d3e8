/**
 Covering-box pruning of map tiles. A direct single-source query may be scanned through a filter on
 the covering boxes of one geometry column; the tile keeps only rows whose output geometry meets it.
 */
module Pruning {
  import opened Counting
  import opened Wrappers
  import opened Sequences
  import opened Sql

  // ---------- rows, geometries and boxes ----------

  datatype Point = Point(x: real, y: real)

  datatype Box = Box(west: real, south: real, east: real, north: real)

  predicate Inside(p: Point, b: Box) {
    b.west <= p.x <= b.east && b.south <= p.y <= b.north
  }

  /** The emitted predicate: the covering box of a row meets the native bounds of the tile. */
  predicate Overlaps(covering: Box, bounds: Box) {
    && covering.west <= bounds.east && covering.east >= bounds.west
    && covering.south <= bounds.north && covering.north >= bounds.south
  }

  /** The predicate holds of two boxes if and only if they have a point in common. */
  lemma {:induction false} OverlapsExactlyWhen(a: Box, b: Box)
    requires a.west <= a.east && a.south <= a.north && b.west <= b.east && b.south <= b.north
    ensures Overlaps(a, b) <==> exists p :: Inside(p, a) && Inside(p, b)
  {
    if Overlaps(a, b) {
      var x, y := if a.west >= b.west then a.west else b.west, if a.south >= b.south then a.south else b.south;
      assert Inside(Point(x, y), a) && Inside(Point(x, y), b);
    }
  }

  datatype Cell = Null | Scalar(value: int) | Geometry(points: iset<Point>)

  /** The columns of a row, and the covering boxes stored beside its geometry columns. */
  datatype Row = Row(cells: map<string, Cell>, boxes: map<string, Option<Box>>)

  // ---------- clauses of a SELECT ----------

  /**
   What a projection is written as: a column, perhaps qualified by its table, or any other expression. An
   element of a tuple column is written like a column qualified by its table.
   */
  datatype Expr = Column(name: string, qualified: bool) | Element(name: string, text: string) | Computed(text: string)
  {
    predicate LooksPlain() {
      Column? || Element?
    }
  }

  /** What it turns out to be: a column of the source, or an expression over its row. */
  datatype Origin = FromColumn(name: string) | FromExpression(text: string)

  datatype Projection =
    | Star(except: set<string>, replace: map<string, string>)
    | QualifiedStar(except: set<string>, replace: map<string, string>)
    | Named(expr: Expr, name: string)

  datatype Clauses = Clauses(
    projections: seq<Projection>,
    where: Option<string>,
    ordered: bool,
    limit: Option<nat>,
    offset: Option<nat>,
    grouped: bool,
    having: bool,
    qualified: bool,
    distinct: bool,
    aggregates: bool)
  {
    /** The clauses act on each row by itself, apart from an order. */
    predicate RowByRow() {
      !grouped && !having && !qualified && !distinct && !aggregates
    }

    predicate Direct() {
      RowByRow() && limit.None? && offset.None?
    }
  }

  /** The meaning of computed expressions, of WHERE conditions and of the ORDER BY comparison. */
  datatype Interpretation = Interpretation(
    value: (string, Row) -> Cell,
    holds: (string, Row) -> bool,
    leq: (Row, Row) -> bool)

  function AliasNames(projections: seq<Projection>): set<string> {
    if projections == [] then {}
    else (if projections[0].Named? then {projections[0].name} else {}) + AliasNames(projections[1..])
  }

  /** The expression that a select list gives this name, if it gives it to one. */
  function Definition(projections: seq<Projection>, name: string): (e: Option<Expr>)
    ensures e.Some? <==> name in AliasNames(projections)
    ensures e.Some? ==> Named(e.value, name) in projections
  {
    if projections == [] then None
    else if projections[0].Named? && projections[0].name == name then Some(projections[0].expr)
    else Definition(projections[1..], name)
  }

  /**
   Names of a select list come before columns of the source, as ClickHouse resolves them by default; a
   name is not resolved through itself.
   */
  function Resolve(projections: seq<Projection>, e: Expr, seen: set<string>): Origin
    decreases |AliasNames(projections) - seen|
  {
    match e
    case Computed(text) => FromExpression(text)
    case Element(_, text) => FromExpression(text)
    case Column(name, qualified) =>
      var definition := Definition(projections, name);
      if qualified || name in seen || definition.None? then FromColumn(name)
      else
        assert AliasNames(projections) - (seen + {name}) < AliasNames(projections) - seen;
        SmallerSet(AliasNames(projections) - (seen + {name}), AliasNames(projections) - seen);
        Resolve(projections, definition.value, seen + {name})
  }

  lemma {:induction false} SmallerSet(a: set<string>, b: set<string>)
    requires a < b
    ensures |a| < |b|
  {
    SubsetCount(a, b);
  }

  /** Where the output columns of this name come from. */
  function Outputs(projections: seq<Projection>, columns: set<string>, name: string): seq<Origin> {
    OutputsIn(projections, projections, columns, name)
  }

  function OutputsIn(all: seq<Projection>, projections: seq<Projection>, columns: set<string>,
      name: string): seq<Origin>
  {
    if projections == [] then []
    else OutputsOfOne(all, projections[0], columns, name) + OutputsIn(all, projections[1..], columns, name)
  }

  function OutputsOfOne(all: seq<Projection>, projection: Projection, columns: set<string>, name: string): seq<Origin> {
    match projection
    case Named(expr, n) => if n == name then [Resolve(all, expr, {n})] else []
    case _ =>
      if name !in columns || name in projection.except then []
      else [if name in projection.replace then FromExpression(projection.replace[name]) else FromColumn(name)]
  }

  function OutputNames(projections: seq<Projection>, columns: set<string>): set<string> {
    if projections == [] then {}
    else
      (if projections[0].Named? then {projections[0].name} else columns - projections[0].except)
      + OutputNames(projections[1..], columns)
  }

  ghost function Value(interp: Interpretation, row: Row, origin: Origin): Cell {
    match origin
    case FromColumn(name) => if name in row.cells then row.cells[name] else Null
    case FromExpression(text) => interp.value(text, row)
  }

  ghost function Project(interp: Interpretation, columns: set<string>, projections: seq<Projection>, row: Row): Row {
    Row(map n | n in OutputNames(projections, columns) ::
          var origins := Outputs(projections, columns, n);
          if origins == [] then Null else Value(interp, row, origins[0]),
        map[])
  }

  ghost function Where(interp: Interpretation, condition: string): Row -> bool {
    (r: Row) => interp.holds(condition, r)
  }

  ghost function Projecting(interp: Interpretation, columns: set<string>, projections: seq<Projection>): Row -> Row {
    (r: Row) => Project(interp, columns, projections, r)
  }

  ghost function Chosen(interp: Interpretation, c: Clauses, rows: seq<Row>): seq<Row> {
    var kept := if c.where.Some? then Filter(rows, Where(interp, c.where.value)) else rows;
    if c.ordered then Sort(kept, interp.leq) else kept
  }

  ghost function RowSelect(interp: Interpretation, columns: set<string>, c: Clauses, rows: seq<Row>): seq<Row> {
    var out := Map(Chosen(interp, c, rows), Projecting(interp, columns, c.projections));
    var skipped := if c.offset.Some? then (if c.offset.value <= |out| then out[c.offset.value..] else []) else out;
    if c.limit.Some? && c.limit.value <= |skipped| then skipped[..c.limit.value] else skipped
  }

  // ---------- the decision to prune ----------

  /** How many SELECTs a query contains, itself included. */
  function Selects<C, S>(q: Query<C, S>): nat
    decreases q, 1
  {
    match q
    case Storage(_) => 0
    case Select(withs, from, subqueries, _) =>
      1 + SelectsInCtes(withs.ctes) + SelectsInFrom(from) + SelectsInAll(subqueries)
    case SetOperation(withs, left, right, _) => SelectsInCtes(withs.ctes) + Selects(left) + Selects(right)
  }

  function SelectsInCtes<C, S>(ctes: seq<Cte<C, S>>): nat
    decreases ctes, 0
  {
    if ctes == [] then 0 else Selects(ctes[0].body) + SelectsInCtes(ctes[1..])
  }

  function SelectsInFrom<C, S>(items: seq<FromItem<C, S>>): nat
    decreases items, 0
  {
    if items == [] then 0 else SelectsInItem(items[0]) + SelectsInFrom(items[1..])
  }

  function SelectsInItem<C, S>(item: FromItem<C, S>): nat
    decreases item, 2
  {
    match item
    case Derived(body, _) => Selects(body)
    case _ => 0
  }

  function SelectsInAll<C, S>(qs: seq<Query<C, S>>): nat
    decreases qs, 0
  {
    if qs == [] then 0 else Selects(qs[0]) + SelectsInAll(qs[1..])
  }

  /** A parsed query holds no storage relation: only a binder puts one there. */
  ghost predicate Parsed<C, S>(q: Query<C, S>) {
    match q
    case Storage(_) => false
    case Select(_, _, subqueries, _) => forall s :: s in subqueries ==> Parsed(s)
    case SetOperation(_, left, right, _) => Parsed(left) && Parsed(right)
  }

  datatype Field = Field(name: string, crs: Option<string>, covering: bool)

  datatype Prune = Prune(column: string, bounds: Box)

  /** The column the decision takes the output geometry for: the last star or plain column that names it. */
  function SelectedColumn(projections: seq<Projection>, geometry: string): Option<string> {
    if projections == [] then None
    else
      var last := projections[|projections| - 1];
      if last.Star? then Some(geometry)
      else if last.Named? && last.expr.LooksPlain() && last.name == geometry then Some(last.expr.name)
      else SelectedColumn(projections[..|projections| - 1], geometry)
  }

  function FindField(fields: seq<Field>, name: string): Option<Field> {
    if fields == [] then None else if fields[0].name == name then Some(fields[0]) else FindField(fields[1..], name)
  }

  function PruneOf(fields: seq<Field>, selected: Option<string>, transform: string -> Option<Box>): Option<Prune> {
    if selected.None? then None
    else
      var field := FindField(fields, selected.value);
      if field.None? || field.value.crs.None? || !field.value.covering then None
      else
        var bounds := transform(field.value.crs.value);
        if bounds.None? || bounds.value.east < bounds.value.west then None
        else Some(Prune(selected.value, bounds.value))
  }

  predicate Eligible<S>(q: Query<Clauses, S>) {
    && Selects(q) == 1
    && q.Select?
    && |q.from| == 1 && q.withs.ctes == []
    && q.clauses.Direct()
    && q.from[0].Table?
  }

  // ---------- when a prune is issued, spelled out ----------

  /** One SELECT over one table, whose clauses treat every row by itself and drop none by count. */
  predicate IsPlainSelection<S>(q: Query<Clauses, S>) {
    && q.Select? && q.withs.ctes == [] && q.subqueries == [] && |q.from| == 1 && q.from[0].Table?
    && var c := q.clauses;
       && !c.grouped && !c.having && !c.qualified && !c.distinct && !c.aggregates
       && c.limit.None? && c.offset.None?
  }

  /** The projection at this place selects this column as the geometry: as a star, or by the geometry's name. */
  predicate SelectsAs(projections: seq<Projection>, j: nat, geometry: string, column: string)
    requires j < |projections|
  {
    var p := projections[j];
    || (p.Star? && column == geometry)
    || (p.Named? && !p.expr.Computed? && p.name == geometry && p.expr.name == column)
  }

  predicate SelectsNothing(projections: seq<Projection>, j: nat, geometry: string)
    requires j < |projections|
  {
    var p := projections[j];
    !p.Star? && !(p.Named? && !p.expr.Computed? && p.name == geometry)
  }

  /** The last projection that selects a geometry selects this column. */
  ghost predicate LastSelects(projections: seq<Projection>, geometry: string, column: string) {
    exists j: nat :: j < |projections| && SelectsAs(projections, j, geometry, column)
                  && forall k: nat :: j < k < |projections| ==> SelectsNothing(projections, k, geometry)
  }

  /** The first field of this name has a reference system and covering boxes, and the tile has these bounds in it. */
  ghost predicate FieldCovers(fields: seq<Field>, transform: string -> Option<Box>, p: Prune) {
    exists i :: 0 <= i < |fields|
             && fields[i].name == p.column && (forall k :: 0 <= k < i ==> fields[k].name != p.column)
             && fields[i].covering && fields[i].crs.Some?
             && transform(fields[i].crs.value) == Some(p.bounds) && p.bounds.west <= p.bounds.east
  }

  lemma {:induction false} SelectedIsLast(projections: seq<Projection>, geometry: string, column: string)
    ensures SelectedColumn(projections, geometry) == Some(column) <==> LastSelects(projections, geometry, column)
  {
    if projections != [] {
      var n := |projections| - 1;
      var front := projections[..n];
      SelectedIsLast(front, geometry, column);
      if SelectsNothing(projections, n, geometry) {
        if LastSelects(front, geometry, column) {
          var j: nat :| j < |front| && SelectsAs(front, j, geometry, column)
                     && forall k: nat :: j < k < |front| ==> SelectsNothing(front, k, geometry);
          assert SelectsAs(projections, j, geometry, column);
          forall k: nat | j < k < |projections| ensures SelectsNothing(projections, k, geometry) {
            assert k < n ==> SelectsNothing(front, k, geometry);
          }
        }
        if LastSelects(projections, geometry, column) {
          var j: nat :| j < |projections| && SelectsAs(projections, j, geometry, column)
                     && forall k: nat :: j < k < |projections| ==> SelectsNothing(projections, k, geometry);
          assert SelectsAs(front, j, geometry, column);
          forall k: nat | j < k < |front| ensures SelectsNothing(front, k, geometry) {
            assert SelectsNothing(projections, k, geometry);
          }
        }
      } else {
        if SelectedColumn(projections, geometry) == Some(column) {
          assert SelectsAs(projections, n, geometry, column);
        }
      }
    }
  }

  lemma {:induction false} FoundIsFirst(fields: seq<Field>, name: string)
    ensures match FindField(fields, name)
            case Some(f) =>
              exists i :: 0 <= i < |fields| && fields[i] == f && f.name == name
                       && forall k :: 0 <= k < i ==> fields[k].name != name
            case None => forall k :: 0 <= k < |fields| ==> fields[k].name != name
  {
    if fields != [] && fields[0].name != name {
      FoundIsFirst(fields[1..], name);
      var found := FindField(fields[1..], name);
      if found.Some? {
        var i :| 0 <= i < |fields[1..]| && fields[1..][i] == found.value && found.value.name == name
              && forall k :: 0 <= k < i ==> fields[1..][k].name != name;
        forall k | 0 <= k < i + 1 ensures fields[k].name != name {
          assert k > 0 ==> fields[k] == fields[1..][k - 1];
        }
        assert fields[i + 1] == found.value;
      } else {
        forall k | 0 <= k < |fields| ensures fields[k].name != name {
          assert k > 0 ==> fields[k] == fields[1..][k - 1];
        }
      }
    }
  }

  lemma {:induction false} PruneNeedsCovering(fields: seq<Field>, selected: string, transform: string -> Option<Box>,
      p: Prune)
    ensures PruneOf(fields, Some(selected), transform) == Some(p) <==>
              p.column == selected && FieldCovers(fields, transform, p)
  {
    FoundIsFirst(fields, selected);
  }

  lemma {:induction false} EligibleExactlyWhen<S>(q: Query<Clauses, S>)
    requires Parsed(q)
    ensures Eligible(q) <==> IsPlainSelection(q)
  {
    match q
    case Select(withs, from, subqueries, _) =>
      assert Selects(q) == 1 + SelectsInCtes(withs.ctes) + SelectsInFrom(from) + SelectsInAll(subqueries);
      if |from| == 1 {
        assert SelectsInFrom(from) == SelectsInItem(from[0]) + SelectsInFrom(from[1..]);
      }
      if subqueries != [] {
        SomeSelects(subqueries[0]);
      }
    case SetOperation(_, _, _, _) =>
  }

  lemma {:induction false} SomeSelects<C, S>(q: Query<C, S>)
    requires Parsed(q)
    ensures Selects(q) > 0
  {
    if q.SetOperation? {
      SomeSelects(q.left);
    }
  }

  /**
   A prune is issued for a parsed statement if and only if the statement is a plain selection from one
   table, the last projection that selects the geometry selects the pruned column, and the first field of
   that name has a reference system, covering boxes, and the prune's bounds for the tile.
   */
  ghost predicate Prunes<S>(q: Query<Clauses, S>, geometry: string, fields: seq<Field>,
      transform: string -> Option<Box>, p: Prune)
  {
    && IsPlainSelection(q) && LastSelects(q.clauses.projections, geometry, p.column)
    && FieldCovers(fields, transform, p)
  }

  lemma {:induction false} PrunesExactlyWhen<S>(q: Query<Clauses, S>, geometry: string, fields: seq<Field>,
      transform: string -> Option<Box>, p: Prune)
    requires Parsed(q)
    ensures Decision(q, geometry, fields, transform) == Some(p) <==> Prunes(q, geometry, fields, transform, p)
  {
    EligibleExactlyWhen(q);
    if q.Select? {
      var selected := SelectedColumn(q.clauses.projections, geometry);
      SelectedIsLast(q.clauses.projections, geometry, p.column);
      if selected.Some? {
        PruneNeedsCovering(fields, selected.value, transform, p);
      }
    }
  }

  function Decision<S>(q: Query<Clauses, S>, geometry: string, fields: seq<Field>,
      transform: string -> Option<Box>): Option<Prune>
  {
    if Eligible(q) then PruneOf(fields, SelectedColumn(q.clauses.projections, geometry), transform) else None
  }

  /** The decision as the source takes it: eligibility, a pass over the projections, the declared field. */
  method CoveringFilter<S>(q: Query<Clauses, S>, geometry: string, fields: seq<Field>,
      transform: string -> Option<Box>) returns (r: Option<Prune>)
    ensures r == Decision(q, geometry, fields, transform)
    ensures Parsed(q) ==> forall p :: r == Some(p) <==> Prunes(q, geometry, fields, transform, p)
  {
    if Parsed(q) {
      forall p
        ensures Decision(q, geometry, fields, transform) == Some(p) <==> Prunes(q, geometry, fields, transform, p)
      {
        PrunesExactlyWhen(q, geometry, fields, transform, p);
      }
    }
    if Selects(q) != 1 {
      return None;
    }
    if !q.Select? || |q.from| != 1 || q.withs.ctes != [] || !q.clauses.Direct() || !q.from[0].Table? {
      return None;
    }
    var selected: Option<string> := None;
    var projections := q.clauses.projections;
    for i := 0 to |projections|
      invariant selected == SelectedColumn(projections[..i], geometry)
    {
      assert projections[..i + 1][..i] == projections[..i];
      var projection := projections[i];
      if projection.Star? {
        selected := Some(geometry);
      } else if projection.Named? && projection.expr.LooksPlain() && projection.name == geometry {
        selected := Some(projection.expr.name);
      }
    }
    assert projections[..|projections|] == projections;
    return PruneOf(fields, selected, transform);
  }

  // ---------- the tile pipeline ----------

  /** A storage scan, with the covering filter placed inside it or not. */
  datatype Scan = Scan(filter: Option<Prune>)

  /** Everything the outcome depends on besides the statement. */
  datatype Scene = Scene(
    columns: set<string>,
    rows: seq<Row>,
    interp: Interpretation,
    normalize: (string, iset<Point>) -> iset<Point>,
    geographic: iset<Point> -> iset<Point>,
    project: Point -> Point,
    region: Box,
    refers: (Clauses, string) -> bool,
    otherwise: (Clauses, seq<(Option<string>, seq<Row>)>, seq<seq<Row>>) -> seq<Row>)

  /** Reprojects every geometry of a row to the working reference system; covering boxes stay as stored. */
  ghost function Normalized(scene: Scene, row: Row): Row {
    row.(cells := map n | n in row.cells ::
           if row.cells[n].Geometry? then Geometry(scene.normalize(n, row.cells[n].points)) else row.cells[n])
  }

  ghost predicate Kept(prune: Prune, row: Row) {
    prune.column in row.boxes && row.boxes[prune.column].Some? && Overlaps(row.boxes[prune.column].value, prune.bounds)
  }

  ghost function Keeping(prune: Prune): Row -> bool {
    (r: Row) => Kept(prune, r)
  }

  ghost function Normalizing(scene: Scene): Row -> Row {
    (r: Row) => Normalized(scene, r)
  }

  ghost function Scanned(scene: Scene, scan: Scan): seq<Row> {
    var rows := if scan.filter.Some? then Filter(scene.rows, Keeping(scan.filter.value)) else scene.rows;
    Map(rows, Normalizing(scene))
  }

  ghost function SceneWorld(scene: Scene): World<Clauses, Scan, seq<Row>> {
    World(
      scene.refers,
      (c: Clauses, items: seq<(Option<string>, seq<Row>)>, subs: seq<seq<Row>>) =>
        if c.RowByRow() && |items| == 1 && subs == [] then RowSelect(scene.interp, scene.columns, c, items[0].1)
        else scene.otherwise(c, items, subs),
      (c: Clauses, l: seq<Row>, r: seq<Row>) => l,
      (ctes: seq<seq<Row>>, rows: seq<Row>) => rows,
      (f: seq<Row> -> seq<Row>) => f([]),
      (s: Scan) => Scanned(scene, s),
      (n: string) => [],
      (t: string) => [])
  }

  ghost predicate MeetsTile(scene: Scene, cell: Cell) {
    cell.Geometry? && exists p :: p in scene.geographic(cell.points) && Inside(p, scene.region)
  }

  ghost function Drawing(scene: Scene, geometry: string): Row -> bool {
    (r: Row) => geometry in r.cells && MeetsTile(scene, r.cells[geometry])
  }

  /** The rows of a query result that the tile draws. */
  ghost function Tile(scene: Scene, geometry: string, rows: seq<Row>): seq<Row> {
    Filter(rows, Drawing(scene, geometry))
  }

  /**
   The assumptions: a stored covering box contains its geometry; reprojection works point by point;
   the transformed bounds contain every native point that lands in the tile; ORDER BY compares by a
   total preorder.
   */
  ghost predicate Consistent(scene: Scene, prune: Prune) {
    && (forall row :: row in scene.rows && prune.column in row.cells && row.cells[prune.column].Geometry? ==>
          forall p :: p in row.cells[prune.column].points ==>
            prune.column in row.boxes && row.boxes[prune.column].Some? && Inside(p, row.boxes[prune.column].value))
    && (forall s: iset<Point>, p :: p in scene.geographic(scene.normalize(prune.column, s)) ==>
          exists q :: q in s && scene.project(q) == p)
    && (forall q :: Inside(scene.project(q), scene.region) ==> Inside(q, prune.bounds))
    && TotalPreorder(scene.interp.leq)
  }
}
