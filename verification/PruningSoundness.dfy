/** Exactly when pruning leaves every tile unchanged, and why its exclusions are needed. */
module PruningSoundness {
  import opened Wrappers
  import opened Sequences
  import opened Sql
  import opened SqlBinding
  import opened SqlMeaning
  import opened Pruning

  // ---------- the shape of an eligible statement ----------

  lemma {:induction false} ParsedCounts<C, S>(q: Query<C, S>)
    requires Parsed(q)
    ensures Selects(q) >= 1
  {
    match q
    case Select(_, _, _, _) =>
    case SetOperation(_, left, right, _) => ParsedCounts(left);
  }

  lemma {:induction false} NoSelectNoSubquery<C, S>(qs: seq<Query<C, S>>)
    requires SelectsInAll(qs) == 0 && forall q :: q in qs ==> Parsed(q)
    ensures qs == []
  {
    if qs != [] {
      assert qs[0] in qs;
      ParsedCounts(qs[0]);
    }
  }

  /** Counting a single SELECT leaves no subqueries at all, hence no second table. */
  lemma {:induction false} EligibleShape<S>(q: Query<Clauses, S>)
    requires Parsed(q) && Eligible(q)
    ensures IsLone(q)
  {
    match q
    case Select(withs, from, subqueries, _) =>
      assert Selects(q) == 1 + SelectsInCtes(withs.ctes) + SelectsInFrom(from) + SelectsInAll(subqueries);
      NoSelectNoSubquery(subqueries);
  }

  predicate IsLone<S>(q: Query<Clauses, S>) {
    q.Select? && |q.withs.ctes| == 0 && |q.subqueries| == 0 && |q.from| == 1 && q.from[0].Table?
  }

  /** The rows of the compiled statement over one scan. */
  ghost function Result(scene: Scene, q: Query<Clauses, Scan>, scan: Scan): seq<Row>
    requires q.Select? && |q.from| == 1 && q.from[0].Table?
  {
    Eval(SceneWorld(scene), map[], map[], Compile(map[Fold(q.from[0].name) := scan], q))
  }

  lemma {:induction false} CompiledShape(q: Query<Clauses, Scan>, scan: Scan)
    requires IsLone(q)
    ensures var name, alias := q.from[0].name, q.from[0].alias;
            Compile(map[Fold(name) := scan], q) ==
            Select(With(q.withs.recursive, []),
                   [Derived(Storage(scan), Some(if alias.Some? then alias.value else name))],
                   [], q.clauses)
  {
    var name, alias := q.from[0].name, q.from[0].alias;
    var bindings := map[Fold(name) := scan];
    var bind := StorageBinder<Clauses, Scan>(bindings);
    var inner := {} + CteNames(q.withs.ctes);
    assert ScopeFrom(bind, inner, q.from) == [StorageItem(bindings, name, alias)] + ScopeFrom(bind, inner, q.from[1..]);
    var c := Compile(bindings, q);
    assert c.subqueries == ScopeAll(bind, inner, q.subqueries) && q.subqueries == [];
    assert c.withs.ctes == ScopeWith(bind, {}, q.withs.recursive, q.withs.ctes) && q.withs.ctes == [];
  }

  lemma {:induction false} LoneSelect(scene: Scene, recursive: bool, scan: Scan, name: string, c: Clauses)
    requires c.RowByRow()
    ensures Eval(SceneWorld(scene), map[], map[],
              Select(With(recursive, []), [Derived(Storage(scan), Some(name))], [], c))
         == RowSelect(scene.interp, scene.columns, c, Scanned(scene, scan))
  {
    var w := SceneWorld(scene);
    var item: FromItem<Clauses, Scan> := Derived(Storage(scan), Some(name));
    assert EvalItem(w, map[], map[], item) == Scanned(scene, scan);
    var whole := Select(With(recursive, []), [item], [], c);
    assert EvalFrom(w, map[], map[], whole, [item]) == [(Label(w.refers, whole, [], item), Scanned(scene, scan))];
  }

  lemma {:induction false} ResultIsRowSelect(scene: Scene, q: Query<Clauses, Scan>, scan: Scan)
    requires Parsed(q) && Eligible(q)
    ensures Result(scene, q, scan) == RowSelect(scene.interp, scene.columns, q.clauses, Scanned(scene, scan))
  {
    EligibleShape(q);
    CompiledShape(q, scan);
    var name, alias := q.from[0].name, q.from[0].alias;
    LoneSelect(scene, q.withs.recursive, scan, if alias.Some? then alias.value else name, q.clauses);
  }

  // ---------- pruning commutes with everything a direct statement does ----------

  lemma {:induction false} ScanFilterMovesOut(scene: Scene, prune: Prune)
    ensures Scanned(scene, Scan(Some(prune))) == Filter(Scanned(scene, Scan(None)), Keeping(prune))
  {
    FilterOfMap(scene.rows, Normalizing(scene), Keeping(prune), Keeping(prune));
  }

  lemma {:induction false} ScanFilterMovesPastChoice(interp: Interpretation, c: Clauses, rows: seq<Row>,
      keep: Row -> bool)
    requires TotalPreorder(interp.leq)
    ensures Chosen(interp, c, Filter(rows, keep)) == Filter(Chosen(interp, c, rows), keep)
  {
    if c.where.Some? {
      FiltersCommute(rows, keep, Where(interp, c.where.value));
    }
    if c.ordered {
      FilterOfSort(if c.where.Some? then Filter(rows, Where(interp, c.where.value)) else rows, interp.leq, keep);
    }
  }

  lemma {:induction false} ChosenAreRows(interp: Interpretation, c: Clauses, rows: seq<Row>, row: Row)
    requires TotalPreorder(interp.leq) && row in Chosen(interp, c, rows)
    ensures row in rows
  {
    var kept := if c.where.Some? then Filter(rows, Where(interp, c.where.value)) else rows;
    SortSorts(kept, interp.leq);
    if c.where.Some? {
      FilterMembers(rows, Where(interp, c.where.value), row);
    }
  }

  lemma {:induction false} OutputsAreNamed(projections: seq<Projection>, columns: set<string>, name: string)
    ensures Outputs(projections, columns, name) != [] ==> name in OutputNames(projections, columns)
  {
    OutputsInAreNamed(projections, projections, columns, name);
  }

  lemma {:induction false} OutputsInAreNamed(all: seq<Projection>, projections: seq<Projection>, columns: set<string>,
      name: string)
    ensures OutputsIn(all, projections, columns, name) != [] ==> name in OutputNames(projections, columns)
  {
    if projections != [] {
      OutputsInAreNamed(all, projections[1..], columns, name);
    }
  }

  /** A row whose output geometry meets the tile passes the covering filter. */
  lemma {:induction false} DrawnRowsAreKept(scene: Scene, c: Clauses, geometry: string, prune: Prune, row: Row)
    requires Consistent(scene, prune) && row in scene.rows
    requires Outputs(c.projections, scene.columns, geometry) == [FromColumn(prune.column)]
    requires Drawing(scene, geometry)(Project(scene.interp, scene.columns, c.projections, Normalized(scene, row)))
    ensures Kept(prune, Normalized(scene, row))
  {
    OutputsAreNamed(c.projections, scene.columns, geometry);
    var cell := Value(scene.interp, Normalized(scene, row), FromColumn(prune.column));
    assert MeetsTile(scene, cell);
    var points := row.cells[prune.column].points;
    var p :| p in scene.geographic(scene.normalize(prune.column, points)) && Inside(p, scene.region);
    var q :| q in points && scene.project(q) == p;
    assert Inside(q, prune.bounds) && Inside(q, row.boxes[prune.column].value);
  }

  // ---------- the theorem ----------

  /** The tile a pruned statement draws is the tile it draws unpruned. */
  ghost predicate TileUnchanged(scene: Scene, q: Query<Clauses, Scan>, geometry: string, prune: Prune)
    requires q.Select? && |q.from| == 1 && q.from[0].Table?
  {
    Tile(scene, geometry, Result(scene, q, Scan(Some(prune)))) == Tile(scene, geometry, Result(scene, q, Scan(None)))
  }

  /** The tile of a direct statement: the drawn rows among the chosen ones, projected. */
  lemma {:induction false} TileOfDirect(scene: Scene, q: Query<Clauses, Scan>, geometry: string, scan: Scan,
      drawn: Row -> bool)
    requires Parsed(q) && Eligible(q)
    requires forall r :: drawn(r) ==
               Drawing(scene, geometry)(Project(scene.interp, scene.columns, q.clauses.projections, r))
    ensures Tile(scene, geometry, Result(scene, q, scan)) ==
            Map(Filter(Chosen(scene.interp, q.clauses, Scanned(scene, scan)), drawn),
                Projecting(scene.interp, scene.columns, q.clauses.projections))
  {
    ResultIsRowSelect(scene, q, scan);
    FilterOfMap(Chosen(scene.interp, q.clauses, Scanned(scene, scan)),
                Projecting(scene.interp, scene.columns, q.clauses.projections),
                Drawing(scene, geometry), drawn);
  }

  lemma {:induction false} PruningPreservesTiles(scene: Scene, q: Query<Clauses, Scan>, geometry: string, prune: Prune)
    requires Parsed(q) && Eligible(q) && Consistent(scene, prune)
    requires Outputs(q.clauses.projections, scene.columns, geometry) == [FromColumn(prune.column)]
    ensures TileUnchanged(scene, q, geometry, prune)
  {
    var c, keep := q.clauses, Keeping(prune);
    var all := Scanned(scene, Scan(None));
    var drawn := (r: Row) => Drawing(scene, geometry)(Project(scene.interp, scene.columns, c.projections, r));
    TileOfDirect(scene, q, geometry, Scan(Some(prune)), drawn);
    TileOfDirect(scene, q, geometry, Scan(None), drawn);
    ScanFilterMovesOut(scene, prune);
    ScanFilterMovesPastChoice(scene.interp, c, all, keep);
    var chosen := Chosen(scene.interp, c, all);
    forall row | row in chosen && drawn(row) ensures keep(row) {
      ChosenAreRows(scene.interp, c, all, row);
      var i :| 0 <= i < |all| && all[i] == row;
      assert scene.rows[i] in scene.rows;
      DrawnRowsAreKept(scene, c, geometry, prune, scene.rows[i]);
    }
    FilterAbsorbs(chosen, keep, drawn);
  }

  // ---------- exactly when it is sound ----------

  /** Pruning by this column is right for all data, all meanings of expressions and all reprojections. */
  ghost predicate SoundForAllData(q: Query<Clauses, Scan>, columns: set<string>, geometry: string, prune: Prune)
    requires q.Select? && |q.from| == 1 && q.from[0].Table?
  {
    forall scene: Scene :: scene.columns == columns && Consistent(scene, prune) ==>
        TileUnchanged(scene, q, geometry, prune)
  }

  const ORIGIN := Point(0.0, 0.0)
  const ELSEWHERE := Point(1.0, 1.0)

  ghost function Here(): Cell {
    Geometry(iset{ORIGIN})
  }

  /** A reprojection that takes the native bounds, and nothing else, to the origin. */
  function Landing(bounds: Box): Point -> Point {
    (p: Point) => if Inside(p, bounds) then ORIGIN else ELSEWHERE
  }

  ghost function Landed(bounds: Box, points: iset<Point>): iset<Point> {
    iset p | p in points :: Landing(bounds)(p)
  }

  /** A native point east of the bounds, and the box that covers it alone. */
  function Beyond(bounds: Box): Point {
    Point(bounds.east + 1.0, bounds.north)
  }

  function Around(p: Point): Box {
    Box(p.x, p.y, p.x, p.y)
  }

  /** A row whose pruned geometry lies outside the tile, and whose drawn geometry lies inside it. */
  ghost function CounterRow(prune: Prune, output: Origin): Row {
    var far := map[prune.column := Geometry(iset{Beyond(prune.bounds)})];
    Row(if output.FromColumn? then far[output.name := Here()] else far,
        map[prune.column := Some(Around(Beyond(prune.bounds)))])
  }

  /** That row alone, in a tile at the origin. Expressions yield a point there. */
  ghost function CounterScene(columns: set<string>, prune: Prune, output: Origin): Scene {
    Scene(columns,
          [CounterRow(prune, output)],
          Interpretation((t: string, r: Row) => Here(), (t: string, r: Row) => true, (a: Row, b: Row) => true),
          (n: string, s: iset<Point>) => if n == prune.column then Landed(prune.bounds, s) else s,
          (s: iset<Point>) => s,
          Landing(prune.bounds),
          Around(ORIGIN),
          (c: Clauses, n: string) => false,
          (c: Clauses, items: seq<(Option<string>, seq<Row>)>, subs: seq<seq<Row>>) => [])
  }

  lemma {:induction false} CounterSceneIsConsistent(columns: set<string>, prune: Prune, output: Origin)
    requires output != FromColumn(prune.column)
    ensures Consistent(CounterScene(columns, prune, output), prune)
  {
    var scene := CounterScene(columns, prune, output);
    forall s: iset<Point>, p | p in scene.geographic(scene.normalize(prune.column, s))
      ensures exists q :: q in s && scene.project(q) == p
    {
      assert p in Landed(prune.bounds, s);
    }
  }

  lemma {:induction false} CounterRowIsDrawn(projections: seq<Projection>, columns: set<string>, geometry: string,
      prune: Prune, output: Origin)
    requires Outputs(projections, columns, geometry) == [output] && output != FromColumn(prune.column)
    ensures var scene := CounterScene(columns, prune, output);
            Drawing(scene, geometry)(Project(scene.interp, columns, projections, Normalized(scene, scene.rows[0])))
  {
    var scene := CounterScene(columns, prune, output);
    OutputsAreNamed(projections, columns, geometry);
    assert Value(scene.interp, Normalized(scene, scene.rows[0]), output) == Here();
    assert ORIGIN in scene.geographic(Here().points) && Inside(ORIGIN, scene.region);
  }

  lemma {:induction false} CounterScans(columns: set<string>, prune: Prune, output: Origin)
    ensures var scene := CounterScene(columns, prune, output);
            Scanned(scene, Scan(Some(prune))) == [] && Scanned(scene, Scan(None)) == [Normalized(scene, scene.rows[0])]
  {
    var scene := CounterScene(columns, prune, output);
    assert !Keeping(prune)(scene.rows[0]) && scene.rows[1..] == [];
    assert Filter(scene.rows, Keeping(prune)) == Filter(scene.rows[1..], Keeping(prune));
  }

  lemma {:induction false} CounterChoice(columns: set<string>, prune: Prune, output: Origin, c: Clauses, row: Row)
    ensures var interp := CounterScene(columns, prune, output).interp;
            Chosen(interp, c, []) == [] && Chosen(interp, c, [row]) == [row]
  {
    var interp := CounterScene(columns, prune, output).interp;
    assert [row][1..] == [];
    if c.where.Some? {
      assert Filter([row], Where(interp, c.where.value)) == [row] + Filter([], Where(interp, c.where.value));
    }
    assert Sort([row], interp.leq) == Insert(row, Sort([], interp.leq), interp.leq);
  }

  /** Unpruned the tile draws the row, pruned it draws nothing. */
  lemma {:induction false} CounterTiles(q: Query<Clauses, Scan>, columns: set<string>, geometry: string, prune: Prune,
      output: Origin)
    requires Parsed(q) && Eligible(q) && Outputs(q.clauses.projections, columns, geometry) == [output]
    requires output != FromColumn(prune.column)
    ensures var scene := CounterScene(columns, prune, output);
            var drawn := Project(scene.interp, columns, q.clauses.projections,
                                 Normalized(scene, CounterRow(prune, output)));
            && Tile(scene, geometry, Result(scene, q, Scan(None))) == [drawn]
            && Tile(scene, geometry, Result(scene, q, Scan(Some(prune)))) == []
  {
    var scene, c := CounterScene(columns, prune, output), q.clauses;
    var row := Normalized(scene, scene.rows[0]);
    var project := Projecting(scene.interp, columns, c.projections);
    ResultIsRowSelect(scene, q, Scan(Some(prune)));
    ResultIsRowSelect(scene, q, Scan(None));
    CounterScans(columns, prune, output);
    CounterChoice(columns, prune, output, c, row);
    CounterRowIsDrawn(c.projections, columns, geometry, prune, output);
    assert Result(scene, q, Scan(Some(prune))) == Map([], project);
    assert Result(scene, q, Scan(None)) == Map([row], project) == [project(row)];
    assert Tile(scene, geometry, [project(row)]) == [project(row)] + Tile(scene, geometry, []);
  }

  /**
   For an eligible statement with one output column of the geometry's name, pruning is right for all
   data if and only if that output is a plain reference to the very column whose boxes are used.
   */
  lemma {:induction false} PruningSoundExactlyWhen(q: Query<Clauses, Scan>, columns: set<string>, geometry: string,
      prune: Prune)
    requires Parsed(q) && Eligible(q) && |Outputs(q.clauses.projections, columns, geometry)| == 1
    ensures SoundForAllData(q, columns, geometry, prune) <==>
              Outputs(q.clauses.projections, columns, geometry) == [FromColumn(prune.column)]
  {
    var output := Outputs(q.clauses.projections, columns, geometry)[0];
    if output == FromColumn(prune.column) {
      forall scene: Scene | scene.columns == columns && Consistent(scene, prune)
        ensures TileUnchanged(scene, q, geometry, prune)
      {
        PruningPreservesTiles(scene, q, geometry, prune);
      }
    } else {
      CounterSceneIsConsistent(columns, prune, output);
      CounterTiles(q, columns, geometry, prune, output);
      assert !TileUnchanged(CounterScene(columns, prune, output), q, geometry, prune);
    }
  }

  lemma {:induction false} OutputsInclude(all: seq<Projection>, projections: seq<Projection>, columns: set<string>,
      name: string, i: nat)
    requires i < |projections|
    ensures forall o :: o in OutputsOfOne(all, projections[i], columns, name) ==>
              o in OutputsIn(all, projections, columns, name)
  {
    if i > 0 {
      OutputsInclude(all, projections[1..], columns, name, i - 1);
    }
  }

  /** The selected column comes from some projection: a star, or a plain column under the geometry's name. */
  lemma {:induction false} SelectedFrom(projections: seq<Projection>, geometry: string) returns (i: nat)
    requires SelectedColumn(projections, geometry).Some?
    ensures i < |projections|
    ensures var column, p := SelectedColumn(projections, geometry).value, projections[i];
            || (p.Star? && column == geometry)
            || (p.Named? && p.expr.LooksPlain() && p.expr.name == column && p.name == geometry)
  {
    i := |projections| - 1;
    var last := projections[i];
    if !last.Star? && !(last.Named? && last.expr.LooksPlain() && last.name == geometry) {
      i := SelectedFrom(projections[..i], geometry);
    }
  }

  /** No unqualified star excludes or replaces the geometry's name. */
  predicate StarsAreWhole(projections: seq<Projection>, geometry: string) {
    forall p :: p in projections && p.Star? ==> geometry !in p.except && geometry !in p.replace
  }

  /** A plain column selected as the geometry is not the name the same list gives to something else. */
  predicate NoAliasShadows(projections: seq<Projection>, geometry: string) {
    forall p, q :: p in projections && q in projections && p.Named? && q.Named? ==>
      p.name == geometry && p.expr.Column? && !p.expr.qualified && p.expr.name != geometry && q.name == p.expr.name ==>
        q.expr.Column? && q.expr.name == p.expr.name
  }

  /** The geometry is not selected as an element of a tuple column. */
  predicate NoElement(projections: seq<Projection>, geometry: string) {
    forall p :: p in projections && p.Named? && p.name == geometry ==> !p.expr.Element?
  }

  /**
   The decision is right whenever no unqualified star excludes or replaces the geometry's name, no name of
   the select list shadows the selected column, and the geometry is not an element of a tuple: tests on
   the statement and the names of the source's columns.
   */
  lemma {:induction false} PlainSelectionsAreSound(q: Query<Clauses, Scan>, columns: set<string>, geometry: string,
      prune: Prune)
    requires Parsed(q) && Eligible(q) && |Outputs(q.clauses.projections, columns, geometry)| == 1
    requires SelectedColumn(q.clauses.projections, geometry) == Some(prune.column) && prune.column in columns
    requires StarsAreWhole(q.clauses.projections, geometry) && NoAliasShadows(q.clauses.projections, geometry)
    requires NoElement(q.clauses.projections, geometry)
    ensures SoundForAllData(q, columns, geometry, prune)
  {
    var all := q.clauses.projections;
    var i := SelectedFrom(all, geometry);
    var p := all[i];
    assert p in all;
    if p.Named? {
      var definition := Definition(all, p.expr.name);
      if definition.Some? {
        assert Named(definition.value, p.expr.name) in all;
      }
      assert Resolve(all, p.expr, {geometry}) == FromColumn(prune.column);
    }
    OutputsInclude(all, all, columns, geometry, i);
    assert FromColumn(prune.column) in OutputsOfOne(all, p, columns, geometry);
    PruningSoundExactlyWhen(q, columns, geometry, prune);
  }

  // ---------- statements that are pruned wrongly ----------

  function DirectOver(projections: seq<Projection>, limit: Option<nat>): Query<Clauses, Scan> {
    Select(With(false, []), [Table("a", None)], [],
           Clauses(projections, None, false, limit, None, false, false, false, false, false))
  }

  lemma {:induction false} LoneCount<S>(q: Query<Clauses, S>)
    requires IsLone(q)
    ensures Selects(q) == 1
  {
    match q
    case Select(withs, from, subqueries, _) =>
      assert SelectsInFrom(from) == SelectsInItem(from[0]) + SelectsInFrom(from[1..]);
  }

  lemma {:induction false} DirectIsEligible(projections: seq<Projection>, limit: Option<nat>)
    ensures Parsed(DirectOver(projections, limit)) && (Eligible(DirectOver(projections, limit)) <==> limit.None?)
  {
    LoneCount(DirectOver(projections, limit));
  }

  /** The decision settles on this column, and a row of some consistent scene is lost by it. */
  ghost predicate LosesARow(projections: seq<Projection>, columns: set<string>, geometry: string, prune: Prune,
      output: Origin)
  {
    var scene, q := CounterScene(columns, prune, output), DirectOver(projections, None);
    var drawn := Project(scene.interp, columns, projections, Normalized(scene, CounterRow(prune, output)));
    && SelectedColumn(projections, geometry) == Some(prune.column) && Eligible(q) && Consistent(scene, prune)
    && Tile(scene, geometry, Result(scene, q, Scan(None))) == [drawn]
    && Tile(scene, geometry, Result(scene, q, Scan(Some(prune)))) == []
  }

  lemma {:induction false} OtherOutputLosesARow(projections: seq<Projection>, columns: set<string>, geometry: string,
      prune: Prune, output: Origin)
    requires SelectedColumn(projections, geometry) == Some(prune.column)
    requires Outputs(projections, columns, geometry) == [output] && output != FromColumn(prune.column)
    ensures LosesARow(projections, columns, geometry, prune, output)
  {
    DirectIsEligible(projections, None);
    CounterSceneIsConsistent(columns, prune, output);
    CounterTiles(DirectOver(projections, None), columns, geometry, prune, output);
  }

  /** SELECT * EXCLUDE (geom), f(geom) AS geom FROM a */
  const EXCLUDED_STAR := [Star({"geom"}, map[]), Named(Computed("f(geom)"), "geom")]

  /**
   The decision settles on the covering of geom although the output is computed: the row whose geom is
   outside the tile and whose f(geom) is inside it is drawn unpruned, and lost pruned.
   */
  lemma {:induction false} ExcludedStarIsPrunedWrongly(bounds: Box)
    requires bounds.west <= bounds.east
    ensures PruneOf([Field("geom", Some("EPSG:4326"), true)], SelectedColumn(EXCLUDED_STAR, "geom"),
              crs => Some(bounds))
         == Some(Prune("geom", bounds))
    ensures LosesARow(EXCLUDED_STAR, {"geom"}, "geom", Prune("geom", bounds), FromExpression("f(geom)"))
  {
    var all := EXCLUDED_STAR;
    assert all[..1] == [Star({"geom"}, map[])] && all[1..] == [Named(Computed("f(geom)"), "geom")];
    assert OutputsIn(all, all[1..], {"geom"}, "geom") ==
             [FromExpression("f(geom)")] + OutputsIn(all, [], {"geom"}, "geom");
    OtherOutputLosesARow(all, {"geom"}, "geom", Prune("geom", bounds), FromExpression("f(geom)"));
  }

  /** SELECT f(wkt) AS shape, shape AS geom FROM a, where a has a covered column shape */
  const SHADOWED_COLUMN := [Named(Computed("f(wkt)"), "shape"), Named(Column("shape", false), "geom")]

  /**
   A name of the select list that is also a covered column: the output is the expression, the pruning the
   column's.
   */
  lemma {:induction false} ShadowedColumnIsPrunedWrongly(bounds: Box)
    requires bounds.west <= bounds.east
    ensures PruneOf([Field("shape", Some("EPSG:4326"), true)], SelectedColumn(SHADOWED_COLUMN, "geom"),
              crs => Some(bounds))
         == Some(Prune("shape", bounds))
    ensures LosesARow(SHADOWED_COLUMN, {"shape", "wkt"}, "geom", Prune("shape", bounds), FromExpression("f(wkt)"))
  {
    var all, columns := SHADOWED_COLUMN, {"shape", "wkt"};
    assert all[1..] == [Named(Column("shape", false), "geom")] && all[1..][1..] == [];
    assert Definition(all, "shape") == Some(Computed("f(wkt)"));
    assert Resolve(all, Column("shape", false), {"geom"}) == FromExpression("f(wkt)");
    assert OutputsIn(all, all[1..], columns, "geom") ==
             [FromExpression("f(wkt)")] + OutputsIn(all, [], columns, "geom");
    OtherOutputLosesARow(all, columns, "geom", Prune("shape", bounds), FromExpression("f(wkt)"));
  }

  /** SELECT t.geom AS geom FROM a, where a has a covered column geom and a tuple column t with an element geom */
  const TUPLE_ELEMENT := [Named(Element("geom", "t.geom"), "geom")]

  /** The output is the element, the pruning the column's. */
  lemma {:induction false} TupleElementIsPrunedWrongly(bounds: Box)
    requires bounds.west <= bounds.east
    ensures PruneOf([Field("geom", Some("EPSG:4326"), true)], SelectedColumn(TUPLE_ELEMENT, "geom"),
              crs => Some(bounds))
         == Some(Prune("geom", bounds))
    ensures LosesARow(TUPLE_ELEMENT, {"geom", "t"}, "geom", Prune("geom", bounds), FromExpression("t.geom"))
  {
    var all, columns := TUPLE_ELEMENT, {"geom", "t"};
    assert OutputsIn(all, all, columns, "geom") ==
             [FromExpression("t.geom")] + OutputsIn(all, [], columns, "geom");
    OtherOutputLosesARow(all, columns, "geom", Prune("geom", bounds), FromExpression("t.geom"));
  }

  // ---------- why LIMIT and OFFSET are excluded ----------

  const TEN_BY_TEN := Box(0.0, 0.0, 10.0, 10.0)
  const PLAIN_GEOMETRY := [Named(Column("geom", false), "geom")]

  ghost function RowAt(p: Point): Row {
    Row(map["geom" := Geometry(iset{p})], map["geom" := Some(Around(p))])
  }

  /** Two rows in their order, the first outside the tile and the second inside it; nothing is reprojected. */
  ghost function TwoRows(): Scene {
    Scene({"geom"}, [RowAt(Point(50.0, 50.0)), RowAt(Point(5.0, 5.0))],
          Interpretation((t: string, r: Row) => Null, (t: string, r: Row) => true, (a: Row, b: Row) => true),
          (n: string, s: iset<Point>) => s, (s: iset<Point>) => s, (p: Point) => p, TEN_BY_TEN,
          (c: Clauses, n: string) => false,
          (c: Clauses, items: seq<(Option<string>, seq<Row>)>, subs: seq<seq<Row>>) => [])
  }

  lemma {:induction false} TwoRowsScanned()
    ensures Scanned(TwoRows(), Scan(None)) == TwoRows().rows
    ensures Scanned(TwoRows(), Scan(Some(Prune("geom", TEN_BY_TEN)))) == [RowAt(Point(5.0, 5.0))]
  {
    var scene, keep := TwoRows(), Keeping(Prune("geom", TEN_BY_TEN));
    var outside, inside := scene.rows[0], scene.rows[1];
    assert Normalized(scene, outside) == outside && Normalized(scene, inside) == inside;
    assert !keep(outside) && keep(inside) && scene.rows[1..] == [inside];
    assert Filter([inside], keep) == [inside] + Filter([], keep);
  }

  lemma {:induction false} PlainRowIsItself(p: Point)
    ensures Project(TwoRows().interp, {"geom"}, PLAIN_GEOMETRY, RowAt(p)).cells == RowAt(p).cells
  {
    assert Outputs(PLAIN_GEOMETRY, {"geom"}, "geom") ==
             [FromColumn("geom")] + OutputsIn(PLAIN_GEOMETRY, [], {"geom"}, "geom");
  }

  lemma {:induction false} LimitedResult(scan: Scan, first: Row)
    requires Scanned(TwoRows(), scan) != [] && Scanned(TwoRows(), scan)[0] == first
    ensures Result(TwoRows(), DirectOver(PLAIN_GEOMETRY, Some(1)), scan) ==
              [Project(TwoRows().interp, {"geom"}, PLAIN_GEOMETRY, first)]
  {
    var q := DirectOver(PLAIN_GEOMETRY, Some(1));
    CompiledShape(q, scan);
    LoneSelect(TwoRows(), false, scan, "a", q.clauses);
  }

  lemma {:induction false} PlainRowIsDrawn(p: Point)
    ensures var drawn := Project(TwoRows().interp, {"geom"}, PLAIN_GEOMETRY, RowAt(p));
            && drawn.cells == RowAt(p).cells
            && Tile(TwoRows(), "geom", [drawn]) == if Inside(p, TEN_BY_TEN) then [drawn] else []
  {
    var scene, drawn := TwoRows(), Project(TwoRows().interp, {"geom"}, PLAIN_GEOMETRY, RowAt(p));
    PlainRowIsItself(p);
    var cell := drawn.cells["geom"];
    assert cell == Geometry(iset{p}) && (Inside(p, TEN_BY_TEN) <==> MeetsTile(scene, cell)) by {
      assert p in scene.geographic(iset{p});
    }
    assert Drawing(scene, "geom")(drawn) <==> Inside(p, TEN_BY_TEN);
    FilterOne(drawn, Drawing(scene, "geom"));
  }

  lemma {:induction false} TwoRowsConsistent()
    ensures Consistent(TwoRows(), Prune("geom", TEN_BY_TEN))
  {
    var scene := TwoRows();
    forall s: iset<Point>, p | p in scene.geographic(scene.normalize("geom", s))
      ensures exists q :: q in s && scene.project(q) == p
    {
      assert scene.project(p) == p;
    }
  }

  /**
   With LIMIT 1 the statement returns the outside row and the tile is empty; pruned, the tile draws the
   inside row.
   */
  lemma {:induction false} LimitMustBeExcluded()
    ensures var scene, prune, q := TwoRows(), Prune("geom", TEN_BY_TEN), DirectOver(PLAIN_GEOMETRY, Some(1));
            && Consistent(scene, prune) && !Eligible(q)
            && Tile(scene, "geom", Result(scene, q, Scan(None))) == []
            && |Tile(scene, "geom", Result(scene, q, Scan(Some(prune))))| == 1
            && Tile(scene, "geom", Result(scene, q, Scan(Some(prune))))[0].cells == RowAt(Point(5.0, 5.0)).cells
  {
    var scene, prune := TwoRows(), Prune("geom", TEN_BY_TEN);
    var inside, outside := Point(5.0, 5.0), Point(50.0, 50.0);
    DirectIsEligible(PLAIN_GEOMETRY, Some(1));
    TwoRowsConsistent();
    TwoRowsScanned();
    LimitedResult(Scan(None), RowAt(outside));
    LimitedResult(Scan(Some(prune)), RowAt(inside));
    PlainRowIsDrawn(outside);
    PlainRowIsDrawn(inside);
  }

  /** With OFFSET 1 the statement returns the inside row and the tile draws it; pruned, it is skipped. */
  lemma {:induction false} OffsetMustBeExcluded()
    ensures var scene, prune, q := TwoRows(), Prune("geom", TEN_BY_TEN), OverOffset();
            && Consistent(scene, prune) && !Eligible(q)
            && |Tile(scene, "geom", Result(scene, q, Scan(None)))| == 1
            && Tile(scene, "geom", Result(scene, q, Scan(Some(prune)))) == []
  {
    var scene, q := TwoRows(), OverOffset();
    var project := Projecting(scene.interp, scene.columns, PLAIN_GEOMETRY);
    var outside, inside := scene.rows[0], scene.rows[1];
    TwoRowsScanned();
    TwoRowsConsistent();
    LoneResult(scene, q, Scan(None));
    LoneResult(scene, q, Scan(Some(Prune("geom", TEN_BY_TEN))));
    assert Map([outside, inside], project)[1..] == [project(inside)];
    assert Map([inside], project)[1..] == [];
    PlainRowIsDrawn(Point(5.0, 5.0));
  }

  function OverOffset(): Query<Clauses, Scan> {
    Select(With(false, []), [Table("a", None)], [],
           Clauses(PLAIN_GEOMETRY, None, false, None, Some(1), false, false, false, false, false))
  }

  lemma {:induction false} LoneResult(scene: Scene, q: Query<Clauses, Scan>, scan: Scan)
    requires IsLone(q) && q.clauses.RowByRow()
    ensures Result(scene, q, scan) == RowSelect(scene.interp, scene.columns, q.clauses, Scanned(scene, scan))
  {
    CompiledShape(q, scan);
    var name, alias := q.from[0].name, q.from[0].alias;
    LoneSelect(scene, q.withs.recursive, scan, if alias.Some? then alias.value else name, q.clauses);
  }

  // ---------- why window functions are excluded ----------

  /** SELECT geom, row_number() OVER () AS n FROM a */
  function OverWindow(): Query<Clauses, Scan> {
    Select(With(false, []), [Table("a", None)], [],
           Clauses(PLAIN_GEOMETRY + [Named(Computed("row_number() OVER ()"), "n")],
                   None, false, None, None, false, false, false, false, true))
  }

  ghost function Numbered(rows: seq<Row>, n: int): seq<Row> {
    if rows == [] then [] else [Row(rows[0].cells["n" := Scalar(n)], map[])] + Numbered(rows[1..], n + 1)
  }

  /** The two rows, for an engine that numbers what it scans. */
  ghost function TwoNumberedRows(): Scene {
    TwoRows().(otherwise := (c: Clauses, items: seq<(Option<string>, seq<Row>)>, subs: seq<seq<Row>>) =>
                 if |items| == 1 then Numbered(items[0].1, 1) else [])
  }

  lemma {:induction false} WindowResult(scan: Scan)
    ensures Result(TwoNumberedRows(), OverWindow(), scan) == Numbered(Scanned(TwoNumberedRows(), scan), 1)
  {
    var scene, q := TwoNumberedRows(), OverWindow();
    CompiledShape(q, scan);
    var w := SceneWorld(scene);
    var item: FromItem<Clauses, Scan> := Derived(Storage(scan), Some("a"));
    assert EvalItem(w, map[], map[], item) == Scanned(scene, scan);
    var whole := Select(With(false, []), [item], [], q.clauses);
    var items := [(Label(w.refers, whole, [], item), Scanned(scene, scan))];
    assert EvalFrom(w, map[], map[], whole, [item]) == items;
    assert EvalAll(w, map[], map[], whole.subqueries) == [];
    assert !q.clauses.RowByRow() && w.select(q.clauses, items, []) == Numbered(Scanned(scene, scan), 1);
    assert Eval(w, map[], map[], whole) == Numbered(Scanned(scene, scan), 1);
  }

  lemma {:induction false} NumberedScans()
    ensures var scene := TwoNumberedRows();
            && Numbered(Scanned(scene, Scan(None)), 1) ==
                 [NumberedAt(Point(50.0, 50.0), 1), NumberedAt(Point(5.0, 5.0), 2)]
            && Numbered(Scanned(scene, Scan(Some(Prune("geom", TEN_BY_TEN)))), 1) == [NumberedAt(Point(5.0, 5.0), 1)]
  {
    TwoRowsScanned();
    var outside, inside := RowAt(Point(50.0, 50.0)), RowAt(Point(5.0, 5.0));
    assert Scanned(TwoNumberedRows(), Scan(None)) == [outside, inside];
    assert Scanned(TwoNumberedRows(), Scan(Some(Prune("geom", TEN_BY_TEN)))) == [inside];
    assert [outside, inside][1..] == [inside] && [inside][1..] == [];
    assert Numbered([inside], 2) == [NumberedAt(Point(5.0, 5.0), 2)] + Numbered([], 3);
  }

  ghost function NumberedAt(p: Point, n: int): Row {
    Row(RowAt(p).cells["n" := Scalar(n)], map[])
  }

  lemma {:induction false} NumberedIsDrawn(p: Point, n: int)
    ensures Drawing(TwoNumberedRows(), "geom")(NumberedAt(p, n)) <==> Inside(p, TEN_BY_TEN)
  {
    var scene, cell := TwoNumberedRows(), NumberedAt(p, n).cells["geom"];
    assert cell == Geometry(iset{p}) && (Inside(p, TEN_BY_TEN) <==> MeetsTile(scene, cell)) by {
      assert p in scene.geographic(iset{p});
    }
  }

  /** The inside row is drawn either way, but as row 2 of the statement, and as row 1 when pruned. */
  lemma {:induction false} WindowMustBeExcluded()
    ensures var scene, prune, q := TwoNumberedRows(), Prune("geom", TEN_BY_TEN), OverWindow();
            && Consistent(scene, prune) && !Eligible(q)
            && Tile(scene, "geom", Result(scene, q, Scan(None))) == [NumberedAt(Point(5.0, 5.0), 2)]
            && Tile(scene, "geom", Result(scene, q, Scan(Some(prune)))) == [NumberedAt(Point(5.0, 5.0), 1)]
  {
    var scene := TwoNumberedRows();
    var outside, inside := NumberedAt(Point(50.0, 50.0), 1), NumberedAt(Point(5.0, 5.0), 2);
    TwoRowsConsistent();
    assert Consistent(scene, Prune("geom", TEN_BY_TEN));
    WindowResult(Scan(None));
    WindowResult(Scan(Some(Prune("geom", TEN_BY_TEN))));
    NumberedScans();
    NumberedIsDrawn(Point(50.0, 50.0), 1);
    NumberedIsDrawn(Point(5.0, 5.0), 2);
    NumberedIsDrawn(Point(5.0, 5.0), 1);
    FilterOne(inside, Drawing(scene, "geom"));
    FilterOne(NumberedAt(Point(5.0, 5.0), 1), Drawing(scene, "geom"));
    assert [outside, inside][1..] == [inside];
  }
}
