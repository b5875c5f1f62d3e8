/**
 SELECT queries as trees, with lexically scoped common table expressions, and their meaning.

 C stands for the clauses of a query (projections, predicates, grouping, order, limits), S for a
 bound storage source and D for what a query denotes. The meaning is compositional and otherwise
 arbitrary: how clauses combine the relations of their FROM list, including correlated subqueries,
 is a parameter. Clauses know an item of the FROM list by its place, and by its visible name only
 where something that sees the item qualifies a column by that name.
 */
module Sql {
  import opened Wrappers

  datatype Query<C, S> =
    | Select(withs: With<C, S>, from: seq<FromItem<C, S>>, subqueries: seq<Query<C, S>>, clauses: C)
    | SetOperation(withs: With<C, S>, left: Query<C, S>, right: Query<C, S>, clauses: C)
    | Storage(source: S)

  datatype With<C, S> = With(recursive: bool, ctes: seq<Cte<C, S>>)

  datatype Cte<C, S> = Cte(name: string, body: Query<C, S>)

  /** Foreign stands for qualified names, table functions and path relations. */
  datatype FromItem<C, S> =
    | Table(name: string, alias: Option<string>)
    | Derived(body: Query<C, S>, alias: Option<string>)
    | Foreign(text: string, alias: Option<string>)

  /** Case-insensitive spelling of a name. */
  function Fold(name: string): (folded: string)
    ensures |folded| == |name|
  {
    if name == "" then ""
    else [if 'A' <= name[0] <= 'Z' then (name[0] as int + 32) as char else name[0]] + Fold(name[1..])
  }

  /** The name by which the rest of its query refers to an item of the FROM list. */
  function VisibleName<C, S>(item: FromItem<C, S>): string {
    match item
    case Table(name, alias) => if alias.Some? then alias.value else name
    case Derived(_, alias) => if alias.Some? then alias.value else ""
    case Foreign(text, alias) => if alias.Some? then alias.value else text
  }

  /** A common table expression sees itself only under RECURSIVE and as a set operation. */
  predicate SeesItself<C, S>(recursive: bool, cte: Cte<C, S>) {
    recursive && cte.body.SetOperation?
  }

  // ---------- names that columns are qualified by ----------

  function VisibleNames<C, S>(items: seq<FromItem<C, S>>): set<string> {
    if items == [] then {} else {Fold(VisibleName(items[0]))} + VisibleNames(items[1..])
  }

  /**
   Whether a query looks a name up among all items of its FROM list: its clauses qualify a column by the
   name or name the item itself, or a correlated subquery leaves the name to it.
   */
  predicate LooksUp<C, S>(refers: (C, string) -> bool, q: Query<C, S>, name: string)
    decreases q, 0
  {
    match q
    case Storage(_) => false
    case Select(_, _, subqueries, clauses) => refers(clauses, name) || OpenInAll(refers, subqueries, name)
    case SetOperation(_, left, right, _) => Open(refers, left, name) || Open(refers, right, name)
  }

  /**
   Whether a query leaves a name to the queries around it: one that it looks up and does not find, or one
   that its FROM list or its common table expressions leave open.
   */
  predicate Open<C, S>(refers: (C, string) -> bool, q: Query<C, S>, name: string)
    decreases q, 1
  {
    || (LooksUp(refers, q, name) && (q.Select? ==> name !in VisibleNames(q.from)))
    || (q.Select? && OpenInFrom(refers, q.from, name))
    || (!q.Storage? && OpenInWith(refers, q.withs.ctes, name))
  }

  predicate OpenInWith<C, S>(refers: (C, string) -> bool, ctes: seq<Cte<C, S>>, name: string)
    decreases ctes, 0
  {
    ctes != [] && (Open(refers, ctes[0].body, name) || OpenInWith(refers, ctes[1..], name))
  }

  predicate OpenInItem<C, S>(refers: (C, string) -> bool, item: FromItem<C, S>, name: string)
    decreases item, 2
  {
    item.Derived? && Open(refers, item.body, name)
  }

  /** A derived table sees the items before it, and leaves to the queries around what it does not find there. */
  predicate OpenInFrom<C, S>(refers: (C, string) -> bool, items: seq<FromItem<C, S>>, name: string)
    decreases items, 0
  {
    && items != []
    && (|| OpenInItem(refers, items[0], name)
        || (Fold(VisibleName(items[0])) != name && OpenInFrom(refers, items[1..], name)))
  }

  predicate OpenInAll<C, S>(refers: (C, string) -> bool, qs: seq<Query<C, S>>, name: string)
    decreases qs, 0
  {
    qs != [] && (Open(refers, qs[0], name) || OpenInAll(refers, qs[1..], name))
  }

  /** Whether an item is looked up by this name: by its whole query, or by an item that comes later in the list. */
  predicate IsSought<C, S>(refers: (C, string) -> bool, whole: Query<C, S>, later: seq<FromItem<C, S>>, name: string) {
    LooksUp(refers, whole, name) || OpenInFrom(refers, later, name)
  }

  /** What the query around an item can tell of its name: the name, if the item is looked up by it. */
  function Label<C, S>(refers: (C, string) -> bool, whole: Query<C, S>, later: seq<FromItem<C, S>>,
      item: FromItem<C, S>): Option<string>
  {
    var name := Fold(VisibleName(item));
    if IsSought(refers, whole, later, name) then Some(name) else None
  }

  // ---------- meaning ----------

  /**
   What a query engine supplies: which names clauses qualify columns by, the effect of clauses on the
   labelled relations of a FROM list and on subqueries, set operations, what a query may depend on of its
   common table expressions even if nothing refers to them, recursion, storage sources, and its own
   relations for every other name.
   */
  datatype World<!C, !S, !D> = World(
    refers: (C, string) -> bool,
    select: (C, seq<(Option<string>, D)>, seq<D>) -> D,
    combine: (C, D, D) -> D,
    within: (seq<D>, D) -> D,
    recursion: (D -> D) -> D,
    storage: S -> D,
    base: string -> D,
    foreign: string -> D)

  /** Recursion depends only on the values of the recursive step. */
  ghost predicate Extensional<C, S, D(!new)>(w: World<C, S, D>) {
    forall f: D -> D, g: D -> D :: (forall d :: f(d) == g(d)) ==> w.recursion(f) == w.recursion(g)
  }

  /** The denotation of a query, given relations for folded alias names and folded CTE names in scope. */
  ghost function Eval<C, S, D>(w: World<C, S, D>, aliases: map<string, D>, scope: map<string, D>, q: Query<C, S>): D
    decreases q, 1
  {
    match q
    case Storage(source) => w.storage(source)
    case Select(withs, from, subqueries, clauses) =>
      var inner := EvalWith(w, aliases, scope, withs.recursive, withs.ctes);
      var ctes := EvalCtes(w, aliases, scope, withs.recursive, withs.ctes);
      w.within(ctes, w.select(clauses, EvalFrom(w, aliases, inner, q, from), EvalAll(w, aliases, inner, subqueries)))
    case SetOperation(withs, left, right, clauses) =>
      var inner := EvalWith(w, aliases, scope, withs.recursive, withs.ctes);
      var ctes := EvalCtes(w, aliases, scope, withs.recursive, withs.ctes);
      w.within(ctes, w.combine(clauses, Eval(w, aliases, inner, left), Eval(w, aliases, inner, right)))
  }

  ghost function EvalCte<C, S, D>(w: World<C, S, D>, aliases: map<string, D>, scope: map<string, D>, recursive: bool,
      cte: Cte<C, S>): D
    decreases cte, 2
  {
    if SeesItself(recursive, cte) then w.recursion(d => Eval(w, aliases, scope[Fold(cte.name) := d], cte.body))
    else Eval(w, aliases, scope, cte.body)
  }

  ghost function EvalWith<C, S, D>(w: World<C, S, D>, aliases: map<string, D>, scope: map<string, D>, recursive: bool,
      ctes: seq<Cte<C, S>>): map<string, D>
    decreases ctes, 0
  {
    if ctes == [] then scope
    else
      var bound := scope[Fold(ctes[0].name) := EvalCte(w, aliases, scope, recursive, ctes[0])];
      EvalWith(w, aliases, bound, recursive, ctes[1..])
  }

  /** What each of these common table expressions denotes, where it stands. */
  ghost function EvalCtes<C, S, D>(w: World<C, S, D>, aliases: map<string, D>, scope: map<string, D>, recursive: bool,
      ctes: seq<Cte<C, S>>): seq<D>
    decreases ctes, 1
  {
    if ctes == [] then []
    else
      var first := EvalCte(w, aliases, scope, recursive, ctes[0]);
      [first] + EvalCtes(w, aliases, scope[Fold(ctes[0].name) := first], recursive, ctes[1..])
  }

  ghost function EvalItem<C, S, D>(w: World<C, S, D>, aliases: map<string, D>, scope: map<string, D>,
      item: FromItem<C, S>): D
    decreases item, 2
  {
    match item
    case Table(name, _) =>
      if Fold(name) in scope then scope[Fold(name)]
      else if Fold(name) in aliases then aliases[Fold(name)]
      else w.base(name)
    case Derived(body, _) => Eval(w, aliases, scope, body)
    case Foreign(text, _) => w.foreign(text)
  }

  ghost function EvalFrom<C, S, D>(w: World<C, S, D>, aliases: map<string, D>, scope: map<string, D>,
      whole: Query<C, S>, items: seq<FromItem<C, S>>): seq<(Option<string>, D)>
    decreases items, 0
  {
    if items == [] then []
    else
      [(Label(w.refers, whole, items[1..], items[0]), EvalItem(w, aliases, scope, items[0]))]
      + EvalFrom(w, aliases, scope, whole, items[1..])
  }

  ghost function EvalAll<C, S, D>(w: World<C, S, D>, aliases: map<string, D>, scope: map<string, D>,
      qs: seq<Query<C, S>>): seq<D>
    decreases qs, 0
  {
    if qs == [] then [] else [Eval(w, aliases, scope, qs[0])] + EvalAll(w, aliases, scope, qs[1..])
  }
}
