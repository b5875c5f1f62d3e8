/**
 The worker's rewriting of sources by name, and exactly when it preserves the meaning of a query. A
 rewritten table without an alias of its own is visible under the name of the view that replaced it.
 */
module SqlRewriting {
  import opened Wrappers
  import opened Sql
  import opened SqlBinding
  import opened SqlMeaning

  /** A source becomes the view registered for it; the explicit alias, if any, stays. */
  function ViewItem<C, S>(views: map<string, string>, name: string, alias: Option<string>): FromItem<C, S> {
    Table(if Fold(name) in views then views[Fold(name)] else name, alias)
  }

  function ViewBinder<C, S>(views: map<string, string>): (string, Option<string>) -> FromItem<C, S> {
    (name, alias) => ViewItem(views, name, alias)
  }

  ghost function Rewrite<C, S>(views: map<string, string>, q: Query<C, S>): Query<C, S> {
    BindByName(ViewBinder(views), DeclaredNames(q), views.Keys, q)
  }

  // ---------- fresh view names ----------

  /** All clauses of a query, those of its CTEs included. */
  ghost function ClausesIn<C, S>(q: Query<C, S>): set<C>
    decreases q, 1
  {
    match q
    case Storage(_) => {}
    case Select(withs, from, subqueries, clauses) =>
      {clauses} + ClausesInWith(withs.ctes) + ClausesInFrom(from) + ClausesInAll(subqueries)
    case SetOperation(withs, left, right, _) => ClausesInWith(withs.ctes) + ClausesIn(left) + ClausesIn(right)
  }

  ghost function ClausesInWith<C, S>(ctes: seq<Cte<C, S>>): set<C>
    decreases ctes, 0
  {
    if ctes == [] then {} else ClausesIn(ctes[0].body) + ClausesInWith(ctes[1..])
  }

  ghost function ClausesInItem<C, S>(item: FromItem<C, S>): set<C>
    decreases item, 2
  {
    if item.Derived? then ClausesIn(item.body) else {}
  }

  ghost function ClausesInFrom<C, S>(items: seq<FromItem<C, S>>): set<C>
    decreases items, 0
  {
    if items == [] then {} else ClausesInItem(items[0]) + ClausesInFrom(items[1..])
  }

  ghost function ClausesInAll<C, S>(qs: seq<Query<C, S>>): set<C>
    decreases qs, 0
  {
    if qs == [] then {} else ClausesIn(qs[0]) + ClausesInAll(qs[1..])
  }

  /** No clause qualifies a column by a view's name. */
  ghost predicate Quiet<C>(refers: (C, string) -> bool, views: map<string, string>, clauses: set<C>) {
    forall c, a {:trigger c in clauses, a in views} :: c in clauses && a in views ==> !refers(c, Fold(views[a]))
  }

  /** View names are fresh: no CTE of the query is called like one, and no clause mentions one. */
  ghost predicate FreshViews<C, S>(refers: (C, string) -> bool, views: map<string, string>, q: Query<C, S>) {
    (forall a :: a in views ==> Fold(views[a]) !in DeclaredNames(q)) && Quiet(refers, views, ClausesIn(q))
  }

  /** Each view shows the relation of the alias it was registered for. */
  ghost predicate ViewsShow<D>(views: map<string, string>, names: map<string, D>, aliases: map<string, D>) {
    && views.Keys == aliases.Keys
    && forall a :: a in views ==> Fold(views[a]) in names && names[Fold(views[a])] == aliases[a]
  }

  function ViewNames(views: map<string, string>): set<string> {
    set a | a in views :: Fold(views[a])
  }

  // ---------- which parts of a query are renamed ----------

  // Whether a part has a source that loses its name: one without an alias, under another name than its
  // view's, that is looked up by that name. The common table expressions of the part count as well.

  predicate Renames<C, S>(refers: (C, string) -> bool, views: map<string, string>, q: Query<C, S>)
    decreases q, 1
  {
    match q
    case Storage(_) => false
    case Select(withs, from, subqueries, _) =>
      || RenamesWith(refers, views, withs.ctes) || RenamesFrom(refers, views, q, from)
      || RenamesAll(refers, views, subqueries)
    case SetOperation(withs, left, right, _) =>
      RenamesWith(refers, views, withs.ctes) || Renames(refers, views, left) || Renames(refers, views, right)
  }

  predicate RenamesWith<C, S>(refers: (C, string) -> bool, views: map<string, string>, ctes: seq<Cte<C, S>>)
    decreases ctes, 0
  {
    ctes != [] && (Renames(refers, views, ctes[0].body) || RenamesWith(refers, views, ctes[1..]))
  }

  predicate RenamesItem<C, S>(refers: (C, string) -> bool, views: map<string, string>, whole: Query<C, S>,
      later: seq<FromItem<C, S>>, item: FromItem<C, S>)
    decreases item, 2
  {
    match item
    case Table(name, alias) =>
      && alias.None? && Fold(name) in views && Fold(views[Fold(name)]) != Fold(name)
      && IsSought(refers, whole, later, Fold(name))
    case Derived(body, _) => Renames(refers, views, body)
    case Foreign(_, _) => false
  }

  predicate RenamesFrom<C, S>(refers: (C, string) -> bool, views: map<string, string>, whole: Query<C, S>,
      items: seq<FromItem<C, S>>)
    decreases items, 0
  {
    && items != []
    && (RenamesItem(refers, views, whole, items[1..], items[0]) || RenamesFrom(refers, views, whole, items[1..]))
  }

  predicate RenamesAll<C, S>(refers: (C, string) -> bool, views: map<string, string>, qs: seq<Query<C, S>>)
    decreases qs, 0
  {
    qs != [] && (Renames(refers, views, qs[0]) || RenamesAll(refers, views, qs[1..]))
  }

  // ---------- the two evaluations side by side ----------

  /** A query with its aliases bound, and its rewriting with the views bound, in one world. */
  datatype Setting<!C, !S, !D> = Setting(
    world: World<C, S, D>,
    aliases: map<string, D>,
    names: map<string, D>,
    views: map<string, string>,
    taken: set<string>)
  {
    function Bind(): (string, Option<string>) -> FromItem<C, S> {
      ViewBinder(views)
    }
  }

  ghost predicate Sound<C, S, D(!new)>(g: Setting<C, S, D>) {
    && Extensional(g.world) && g.aliases.Keys !! g.taken
    && ViewsShow(g.views, g.names, g.aliases)
    && forall a :: a in g.views ==> Fold(g.views[a]) !in g.taken
  }

  /** The names visible as common table expressions are among the names taken by them. */
  ghost predicate Knows<C, S, D(!new)>(g: Setting<C, S, D>, visible: set<string>) {
    forall v :: v in visible ==> Fold(v) in g.taken
  }

  ghost predicate InScope<C, S, D(!new)>(g: Setting<C, S, D>, visible: set<string>, scope: map<string, D>) {
    scope.Keys <= g.taken && forall v :: v in visible ==> Fold(v) in scope
  }

  /** A part of an accepted query, with view names that are fresh to it. */
  ghost predicate Clean<C, S, D(!new)>(g: Setting<C, S, D>, nodes: set<Node>, clauses: set<C>) {
    Disciplined(nodes, g.taken, g.aliases.Keys) && Quiet(g.world.refers, g.views, clauses)
  }

  ghost predicate CleanQuery<C, S, D(!new)>(g: Setting<C, S, D>, visible: set<string>, q: Query<C, S>) {
    Clean(g, Nodes(visible, q), ClausesIn(q))
  }

  ghost predicate CleanFrom<C, S, D(!new)>(g: Setting<C, S, D>, visible: set<string>, items: seq<FromItem<C, S>>) {
    Clean(g, NodesOfFrom(visible, items), ClausesInFrom(items))
  }

  ghost predicate CleanItem<C, S, D(!new)>(g: Setting<C, S, D>, visible: set<string>, item: FromItem<C, S>) {
    Clean(g, NodesOfItem(visible, item), ClausesInItem(item))
  }

  ghost predicate CleanAll<C, S, D(!new)>(g: Setting<C, S, D>, visible: set<string>, qs: seq<Query<C, S>>) {
    Clean(g, NodesOfAll(visible, qs), ClausesInAll(qs))
  }

  ghost predicate CleanWith<C, S, D(!new)>(g: Setting<C, S, D>, visible: set<string>, recursive: bool,
      ctes: seq<Cte<C, S>>)
  {
    Clean(g, NodesOfWith(visible, recursive, ctes), ClausesInWith(ctes))
  }

  lemma {:induction false} CleanParts<C, S, D(!new)>(g: Setting<C, S, D>, visible: set<string>, recursive: bool,
      ctes: seq<Cte<C, S>>)
    requires ctes != [] && CleanWith(g, visible, recursive, ctes)
    ensures Fold(ctes[0].name) in g.taken && CleanQuery(g, BodyScope(visible, recursive, ctes[0]), ctes[0].body)
    ensures CleanWith(g, visible + {ctes[0].name}, recursive, ctes[1..])
    ensures visible + CteNames(ctes) == visible + {ctes[0].name} + CteNames(ctes[1..])
  {
    assert Declares(ctes[0].name) in NodesOfWith(visible, recursive, ctes);
  }

  lemma {:induction false} KnowsCtes<C, S, D(!new)>(g: Setting<C, S, D>, visible: set<string>, recursive: bool,
      ctes: seq<Cte<C, S>>)
    requires Knows(g, visible) && CleanWith(g, visible, recursive, ctes)
    ensures Knows(g, visible + CteNames(ctes))
    decreases |ctes|
  {
    if ctes == [] {
      assert visible + CteNames(ctes) == visible;
    } else {
      CleanParts(g, visible, recursive, ctes);
      KnowsCtes(g, visible + {ctes[0].name}, recursive, ctes[1..]);
    }
  }

  ghost function Bound<C, S, D>(g: Setting<C, S, D>, visible: set<string>, q: Query<C, S>): Query<C, S> {
    BindByScope(g.Bind(), visible, q)
  }

  ghost function BoundCte<C, S, D>(g: Setting<C, S, D>, visible: set<string>, recursive: bool,
      cte: Cte<C, S>): Cte<C, S>
  {
    Cte(cte.name, Bound(g, BodyScope(visible, recursive, cte), cte.body))
  }

  ghost function BoundCtes<C, S, D>(g: Setting<C, S, D>, visible: set<string>, recursive: bool,
      ctes: seq<Cte<C, S>>): seq<Cte<C, S>>
  {
    ScopeWith(g.Bind(), visible, recursive, ctes)
  }

  lemma {:induction false} BoundFirst<C, S, D(!new)>(g: Setting<C, S, D>, visible: set<string>, recursive: bool,
      ctes: seq<Cte<C, S>>)
    requires ctes != []
    ensures BoundCtes(g, visible, recursive, ctes) ==
            [BoundCte(g, visible, recursive, ctes[0])] + BoundCtes(g, visible + {ctes[0].name}, recursive, ctes[1..])
  {
  }

  ghost predicate IsView<C, S, D>(g: Setting<C, S, D>, name: string) {
    exists a :: a in g.views && name == Fold(g.views[a])
  }

  // ---------- nothing looks a view up ----------

  lemma {:induction false} ViewNotLookedUp<C, S, D(!new)>(g: Setting<C, S, D>, visible: set<string>, q: Query<C, S>,
      view: string)
    requires IsView(g, view) && CleanQuery(g, visible, q)
    ensures !LooksUp(g.world.refers, q, view) && !LooksUp(g.world.refers, Bound(g, visible, q), view)
    decreases q, 0
  {
    match q
    case Storage(_) =>
    case Select(withs, _, subqueries, clauses) =>
      var a :| a in g.views && view == Fold(g.views[a]);
      assert clauses in ClausesIn(q) && !g.world.refers(clauses, view);
      ViewNotOpenInAll(g, visible + CteNames(withs.ctes), subqueries, view);
    case SetOperation(withs, left, right, _) =>
      ViewNotOpen(g, visible + CteNames(withs.ctes), left, view);
      ViewNotOpen(g, visible + CteNames(withs.ctes), right, view);
  }

  lemma {:induction false} ViewNotOpen<C, S, D(!new)>(g: Setting<C, S, D>, visible: set<string>, q: Query<C, S>,
      view: string)
    requires IsView(g, view) && CleanQuery(g, visible, q)
    ensures !Open(g.world.refers, q, view) && !Open(g.world.refers, Bound(g, visible, q), view)
    decreases q, 1
  {
    ViewNotLookedUp(g, visible, q, view);
    if q.Select? {
      ViewNotOpenInFrom(g, visible + CteNames(q.withs.ctes), q.from, view);
    }
    if !q.Storage? {
      ViewNotOpenInWith(g, visible, q.withs.recursive, q.withs.ctes, view);
    }
  }

  lemma {:induction false} ViewNotOpenInWith<C, S, D(!new)>(g: Setting<C, S, D>, visible: set<string>,
      recursive: bool, ctes: seq<Cte<C, S>>, view: string)
    requires IsView(g, view) && CleanWith(g, visible, recursive, ctes)
    ensures !OpenInWith(g.world.refers, ctes, view)
    ensures !OpenInWith(g.world.refers, BoundCtes(g, visible, recursive, ctes), view)
    decreases ctes, 0
  {
    if ctes != [] {
      CleanParts(g, visible, recursive, ctes);
      BoundFirst(g, visible, recursive, ctes);
      ViewNotOpen(g, BodyScope(visible, recursive, ctes[0]), ctes[0].body, view);
      ViewNotOpenInWith(g, visible + {ctes[0].name}, recursive, ctes[1..], view);
    }
  }

  lemma {:induction false} ViewNotOpenInItem<C, S, D(!new)>(g: Setting<C, S, D>, visible: set<string>,
      item: FromItem<C, S>, view: string)
    requires IsView(g, view) && CleanItem(g, visible, item)
    ensures !OpenInItem(g.world.refers, item, view)
    ensures !OpenInItem(g.world.refers, ScopeItem(g.Bind(), visible, item), view)
    decreases item, 2
  {
    if item.Derived? {
      ViewNotOpen(g, visible, item.body, view);
    }
  }

  lemma {:induction false} ViewNotOpenInFrom<C, S, D(!new)>(g: Setting<C, S, D>, visible: set<string>,
      items: seq<FromItem<C, S>>, view: string)
    requires IsView(g, view) && CleanFrom(g, visible, items)
    ensures !OpenInFrom(g.world.refers, items, view)
    ensures !OpenInFrom(g.world.refers, ScopeFrom(g.Bind(), visible, items), view)
    decreases items, 0
  {
    if items != [] {
      ViewNotOpenInItem(g, visible, items[0], view);
      ViewNotOpenInFrom(g, visible, items[1..], view);
      assert ScopeFrom(g.Bind(), visible, items)[1..] == ScopeFrom(g.Bind(), visible, items[1..]);
    }
  }

  lemma {:induction false} ViewNotOpenInAll<C, S, D(!new)>(g: Setting<C, S, D>, visible: set<string>,
      qs: seq<Query<C, S>>, view: string)
    requires IsView(g, view) && CleanAll(g, visible, qs)
    ensures !OpenInAll(g.world.refers, qs, view) && !OpenInAll(g.world.refers, ScopeAll(g.Bind(), visible, qs), view)
    decreases qs, 0
  {
    if qs != [] {
      ViewNotOpen(g, visible, qs[0], view);
      ViewNotOpenInAll(g, visible, qs[1..], view);
      assert ScopeAll(g.Bind(), visible, qs)[1..] == ScopeAll(g.Bind(), visible, qs[1..]);
    }
  }

  // ---------- without a renamed source, names are looked up where they were ----------

  lemma {:induction false} LookUpUnrenamed<C, S, D(!new)>(g: Setting<C, S, D>, visible: set<string>, q: Query<C, S>,
      name: string)
    requires Knows(g, visible) && CleanQuery(g, visible, q) && !Renames(g.world.refers, g.views, q)
    ensures LooksUp(g.world.refers, Bound(g, visible, q), name) == LooksUp(g.world.refers, q, name)
    decreases q, 0
  {
    if !q.Storage? {
      var seen := visible + CteNames(q.withs.ctes);
      KnowsCtes(g, visible, q.withs.recursive, q.withs.ctes);
      if q.Select? {
        OpenInAllUnrenamed(g, seen, q.subqueries, name);
      } else {
        OpenUnrenamed(g, seen, q.left, name);
        OpenUnrenamed(g, seen, q.right, name);
      }
    }
  }

  lemma {:induction false} OpenUnrenamed<C, S, D(!new)>(g: Setting<C, S, D>, visible: set<string>, q: Query<C, S>,
      name: string)
    requires Knows(g, visible) && CleanQuery(g, visible, q) && !Renames(g.world.refers, g.views, q)
    ensures Open(g.world.refers, Bound(g, visible, q), name) == Open(g.world.refers, q, name)
    decreases q, 1
  {
    LookUpUnrenamed(g, visible, q, name);
    if q.Select? && LooksUp(g.world.refers, q, name) {
      if IsView(g, name) {
        ViewNotLookedUp(g, visible, q, name);
      } else {
        NamesUnrenamed(g, visible + CteNames(q.withs.ctes), q, q.from, name);
      }
    }
    if q.Select? {
      KnowsCtes(g, visible, q.withs.recursive, q.withs.ctes);
      OpenInFromUnrenamed(g, visible + CteNames(q.withs.ctes), q, q.from, name);
    }
    if !q.Storage? {
      OpenInWithUnrenamed(g, visible, q.withs.recursive, q.withs.ctes, name);
    }
  }

  lemma {:induction false} OpenInWithUnrenamed<C, S, D(!new)>(g: Setting<C, S, D>, visible: set<string>,
      recursive: bool, ctes: seq<Cte<C, S>>, name: string)
    requires Knows(g, visible) && CleanWith(g, visible, recursive, ctes)
    requires !RenamesWith(g.world.refers, g.views, ctes)
    ensures OpenInWith(g.world.refers, BoundCtes(g, visible, recursive, ctes), name) ==
              OpenInWith(g.world.refers, ctes, name)
    decreases ctes, 0
  {
    if ctes != [] {
      CleanParts(g, visible, recursive, ctes);
      BoundFirst(g, visible, recursive, ctes);
      OpenUnrenamed(g, BodyScope(visible, recursive, ctes[0]), ctes[0].body, name);
      OpenInWithUnrenamed(g, visible + {ctes[0].name}, recursive, ctes[1..], name);
    }
  }

  /** A name that is looked up is visible after the rewriting if and only if it was before. */
  lemma {:induction false} NamesUnrenamed<C, S, D(!new)>(g: Setting<C, S, D>, visible: set<string>,
      whole: Query<C, S>, items: seq<FromItem<C, S>>, name: string)
    requires CleanFrom(g, visible, items) && !RenamesFrom(g.world.refers, g.views, whole, items)
    requires LooksUp(g.world.refers, whole, name) && !IsView(g, name)
    ensures name in VisibleNames(ScopeFrom(g.Bind(), visible, items)) <==> name in VisibleNames(items)
  {
    if items != [] {
      NamesUnrenamed(g, visible, whole, items[1..], name);
      assert ScopeFrom(g.Bind(), visible, items)[1..] == ScopeFrom(g.Bind(), visible, items[1..]);
      var item := items[0];
      if item.Table? && item.name !in visible {
        assert Source(item.name, item.alias) in NodesOfFrom(visible, items);
        assert Fold(item.name) in g.aliases.Keys;
      }
    }
  }

  lemma {:induction false} OpenInItemUnrenamed<C, S, D(!new)>(g: Setting<C, S, D>, visible: set<string>,
      whole: Query<C, S>, later: seq<FromItem<C, S>>, item: FromItem<C, S>, name: string)
    requires Knows(g, visible) && CleanItem(g, visible, item)
    requires !RenamesItem(g.world.refers, g.views, whole, later, item)
    ensures OpenInItem(g.world.refers, ScopeItem(g.Bind(), visible, item), name) ==
              OpenInItem(g.world.refers, item, name)
    decreases item, 2
  {
    if item.Derived? {
      OpenUnrenamed(g, visible, item.body, name);
    }
  }

  /** An item catches a name that later items leave open after the rewriting if and only if it did before. */
  lemma {:induction false} SoughtNameUnrenamed<C, S, D(!new)>(g: Setting<C, S, D>, visible: set<string>,
      whole: Query<C, S>, items: seq<FromItem<C, S>>, name: string)
    requires items != [] && CleanFrom(g, visible, items) && OpenInFrom(g.world.refers, items[1..], name)
    requires !RenamesFrom(g.world.refers, g.views, whole, items)
    ensures Fold(VisibleName(ScopeItem(g.Bind(), visible, items[0]))) == name <==> Fold(VisibleName(items[0])) == name
  {
    var item := items[0];
    if item.Table? && item.name !in visible && item.alias.None? {
      assert Source(item.name, item.alias) in NodesOfFrom(visible, items);
      if Fold(item.name) in g.views {
        var view := Fold(g.views[Fold(item.name)]);
        assert IsView(g, view);
        ViewNotOpenInFrom(g, visible, items[1..], view);
      }
    }
  }

  lemma {:induction false} OpenInFromUnrenamed<C, S, D(!new)>(g: Setting<C, S, D>, visible: set<string>,
      whole: Query<C, S>, items: seq<FromItem<C, S>>, name: string)
    requires Knows(g, visible) && CleanFrom(g, visible, items)
    requires !RenamesFrom(g.world.refers, g.views, whole, items)
    ensures OpenInFrom(g.world.refers, ScopeFrom(g.Bind(), visible, items), name) ==
              OpenInFrom(g.world.refers, items, name)
    decreases items, 0
  {
    if items != [] {
      OpenInItemUnrenamed(g, visible, whole, items[1..], items[0], name);
      OpenInFromUnrenamed(g, visible, whole, items[1..], name);
      if OpenInFrom(g.world.refers, items[1..], name) {
        SoughtNameUnrenamed(g, visible, whole, items, name);
      }
      assert ScopeFrom(g.Bind(), visible, items)[1..] == ScopeFrom(g.Bind(), visible, items[1..]);
    }
  }

  lemma {:induction false} OpenInAllUnrenamed<C, S, D(!new)>(g: Setting<C, S, D>, visible: set<string>,
      qs: seq<Query<C, S>>, name: string)
    requires Knows(g, visible) && CleanAll(g, visible, qs) && !RenamesAll(g.world.refers, g.views, qs)
    ensures OpenInAll(g.world.refers, ScopeAll(g.Bind(), visible, qs), name) == OpenInAll(g.world.refers, qs, name)
    decreases qs, 0
  {
    if qs != [] {
      OpenUnrenamed(g, visible, qs[0], name);
      OpenInAllUnrenamed(g, visible, qs[1..], name);
      assert ScopeAll(g.Bind(), visible, qs)[1..] == ScopeAll(g.Bind(), visible, qs[1..]);
    }
  }

  // ---------- without a renamed source, meanings are kept ----------

  lemma {:induction false} SelectUnrenamed<C, S, D(!new)>(g: Setting<C, S, D>, visible: set<string>,
      scope: map<string, D>, q: Query<C, S>)
    requires Sound(g) && InScope(g, visible, scope) && CleanQuery(g, visible, q)
    requires q.Select? && !Renames(g.world.refers, g.views, q)
    ensures Eval(g.world, g.names, scope, Bound(g, visible, q)) == Eval(g.world, g.aliases, scope, q)
    decreases q, 0
  {
    var recursive, ctes := q.withs.recursive, q.withs.ctes;
    WithUnrenamed(g, visible, scope, recursive, ctes);
    forall name ensures LooksUp(g.world.refers, Bound(g, visible, q), name) == LooksUp(g.world.refers, q, name) {
      LookUpUnrenamed(g, visible, q, name);
    }
    forall view | IsView(g, view) ensures !LooksUp(g.world.refers, q, view) {
      ViewNotLookedUp(g, visible, q, view);
    }
    var inner := EvalWith(g.world, g.aliases, scope, recursive, ctes);
    ItemsUnrenamed(g, visible + CteNames(ctes), inner, Bound(g, visible, q), q, q.from);
    AllUnrenamed(g, visible + CteNames(ctes), inner, q.subqueries);
  }

  lemma {:induction false} QueryUnrenamed<C, S, D(!new)>(g: Setting<C, S, D>, visible: set<string>,
      scope: map<string, D>, q: Query<C, S>)
    requires Sound(g) && InScope(g, visible, scope) && CleanQuery(g, visible, q)
    requires !Renames(g.world.refers, g.views, q)
    ensures Eval(g.world, g.names, scope, Bound(g, visible, q)) == Eval(g.world, g.aliases, scope, q)
    decreases q, 1
  {
    match q
    case Storage(_) =>
    case Select(_, _, _, _) => SelectUnrenamed(g, visible, scope, q);
    case SetOperation(withs, left, right, _) =>
      WithUnrenamed(g, visible, scope, withs.recursive, withs.ctes);
      var inner := EvalWith(g.world, g.aliases, scope, withs.recursive, withs.ctes);
      QueryUnrenamed(g, visible + CteNames(withs.ctes), inner, left);
      QueryUnrenamed(g, visible + CteNames(withs.ctes), inner, right);
  }

  lemma {:induction false} CteUnrenamed<C, S, D(!new)>(g: Setting<C, S, D>, visible: set<string>,
      scope: map<string, D>, recursive: bool, cte: Cte<C, S>)
    requires Sound(g) && InScope(g, visible, scope) && Fold(cte.name) in g.taken
    requires CleanQuery(g, BodyScope(visible, recursive, cte), cte.body)
    requires !Renames(g.world.refers, g.views, cte.body)
    ensures EvalCte(g.world, g.names, scope, recursive, BoundCte(g, visible, recursive, cte))
         == EvalCte(g.world, g.aliases, scope, recursive, cte)
    decreases cte, 2
  {
    var body := Bound(g, BodyScope(visible, recursive, cte), cte.body);
    if SeesItself(recursive, cte) {
      var f: D -> D := d => Eval(g.world, g.names, scope[Fold(cte.name) := d], body);
      var h: D -> D := d => Eval(g.world, g.aliases, scope[Fold(cte.name) := d], cte.body);
      forall d ensures f(d) == h(d) {
        QueryUnrenamed(g, visible + {cte.name}, scope[Fold(cte.name) := d], cte.body);
      }
      assert g.world.recursion(f) == g.world.recursion(h);
    } else {
      QueryUnrenamed(g, visible, scope, cte.body);
    }
  }

  lemma {:induction false} WithUnrenamed<C, S, D(!new)>(g: Setting<C, S, D>, visible: set<string>,
      scope: map<string, D>, recursive: bool, ctes: seq<Cte<C, S>>)
    requires Sound(g) && InScope(g, visible, scope) && CleanWith(g, visible, recursive, ctes)
    requires !RenamesWith(g.world.refers, g.views, ctes)
    ensures EvalWith(g.world, g.names, scope, recursive, BoundCtes(g, visible, recursive, ctes))
         == EvalWith(g.world, g.aliases, scope, recursive, ctes)
    ensures EvalCtes(g.world, g.names, scope, recursive, BoundCtes(g, visible, recursive, ctes))
         == EvalCtes(g.world, g.aliases, scope, recursive, ctes)
    ensures InScope(g, visible + CteNames(ctes), EvalWith(g.world, g.aliases, scope, recursive, ctes))
    decreases ctes, 0
  {
    if ctes == [] {
      assert visible + CteNames(ctes) == visible;
    } else {
      CleanParts(g, visible, recursive, ctes);
      BoundFirst(g, visible, recursive, ctes);
      CteUnrenamed(g, visible, scope, recursive, ctes[0]);
      var next := scope[Fold(ctes[0].name) := EvalCte(g.world, g.aliases, scope, recursive, ctes[0])];
      WithUnrenamed(g, visible + {ctes[0].name}, next, recursive, ctes[1..]);
    }
  }

  lemma {:induction false} ItemUnrenamed<C, S, D(!new)>(g: Setting<C, S, D>, visible: set<string>,
      scope: map<string, D>, whole: Query<C, S>, later: seq<FromItem<C, S>>, item: FromItem<C, S>)
    requires Sound(g) && InScope(g, visible, scope) && CleanItem(g, visible, item)
    requires !RenamesItem(g.world.refers, g.views, whole, later, item)
    ensures EvalItem(g.world, g.names, scope, ScopeItem(g.Bind(), visible, item)) ==
              EvalItem(g.world, g.aliases, scope, item)
    decreases item, 2
  {
    match item
    case Table(name, alias) =>
      if name !in visible {
        assert Source(name, alias) in NodesOfItem(visible, item);
      }
    case Derived(body, _) => QueryUnrenamed(g, visible, scope, body);
    case Foreign(_, _) =>
  }

  lemma {:induction false} LabelUnrenamed<C, S, D(!new)>(g: Setting<C, S, D>, visible: set<string>,
      bound: Query<C, S>, whole: Query<C, S>, boundLater: seq<FromItem<C, S>>, later: seq<FromItem<C, S>>,
      item: FromItem<C, S>)
    requires CleanItem(g, visible, item) && !RenamesItem(g.world.refers, g.views, whole, later, item)
    requires forall name ::
               IsSought(g.world.refers, bound, boundLater, name) == IsSought(g.world.refers, whole, later, name)
    requires forall view :: IsView(g, view) ==> !IsSought(g.world.refers, whole, later, view)
    ensures Label(g.world.refers, bound, boundLater, ScopeItem(g.Bind(), visible, item))
         == Label(g.world.refers, whole, later, item)
  {
    if item.Table? && item.name !in visible {
      assert Source(item.name, item.alias) in NodesOfItem(visible, item);
      if Fold(item.name) in g.views {
        assert IsView(g, Fold(g.views[Fold(item.name)]));
      }
    }
  }

  lemma {:induction false} SoughtUnrenamed<C, S, D(!new)>(g: Setting<C, S, D>, visible: set<string>,
      bound: Query<C, S>, whole: Query<C, S>, items: seq<FromItem<C, S>>)
    requires items != [] && Knows(g, visible) && CleanFrom(g, visible, items)
    requires !RenamesFrom(g.world.refers, g.views, whole, items)
    requires forall name :: LooksUp(g.world.refers, bound, name) == LooksUp(g.world.refers, whole, name)
    requires forall view :: IsView(g, view) ==> !LooksUp(g.world.refers, whole, view)
    ensures forall name :: IsSought(g.world.refers, bound, ScopeFrom(g.Bind(), visible, items[1..]), name)
                        == IsSought(g.world.refers, whole, items[1..], name)
    ensures forall view :: IsView(g, view) ==> !IsSought(g.world.refers, whole, items[1..], view)
  {
    forall name
      ensures IsSought(g.world.refers, bound, ScopeFrom(g.Bind(), visible, items[1..]), name)
           == IsSought(g.world.refers, whole, items[1..], name)
    {
      OpenInFromUnrenamed(g, visible, whole, items[1..], name);
    }
    forall view | IsView(g, view) ensures !IsSought(g.world.refers, whole, items[1..], view) {
      ViewNotOpenInFrom(g, visible, items[1..], view);
    }
  }

  lemma {:induction false} ItemsUnrenamed<C, S, D(!new)>(g: Setting<C, S, D>, visible: set<string>,
      scope: map<string, D>, bound: Query<C, S>, whole: Query<C, S>, items: seq<FromItem<C, S>>)
    requires Sound(g) && Knows(g, visible) && InScope(g, visible, scope) && CleanFrom(g, visible, items)
    requires !RenamesFrom(g.world.refers, g.views, whole, items)
    requires forall name :: LooksUp(g.world.refers, bound, name) == LooksUp(g.world.refers, whole, name)
    requires forall view :: IsView(g, view) ==> !LooksUp(g.world.refers, whole, view)
    ensures EvalFrom(g.world, g.names, scope, bound, ScopeFrom(g.Bind(), visible, items))
         == EvalFrom(g.world, g.aliases, scope, whole, items)
    decreases items, 0
  {
    if items != [] {
      var bounds := ScopeFrom(g.Bind(), visible, items);
      assert bounds[1..] == ScopeFrom(g.Bind(), visible, items[1..]);
      ItemUnrenamed(g, visible, scope, whole, items[1..], items[0]);
      SoughtUnrenamed(g, visible, bound, whole, items);
      LabelUnrenamed(g, visible, bound, whole, bounds[1..], items[1..], items[0]);
      ItemsUnrenamed(g, visible, scope, bound, whole, items[1..]);
    }
  }

  lemma {:induction false} AllUnrenamed<C, S, D(!new)>(g: Setting<C, S, D>, visible: set<string>,
      scope: map<string, D>, qs: seq<Query<C, S>>)
    requires Sound(g) && InScope(g, visible, scope) && CleanAll(g, visible, qs)
    requires !RenamesAll(g.world.refers, g.views, qs)
    ensures EvalAll(g.world, g.names, scope, ScopeAll(g.Bind(), visible, qs)) == EvalAll(g.world, g.aliases, scope, qs)
    decreases qs, 0
  {
    if qs != [] {
      QueryUnrenamed(g, visible, scope, qs[0]);
      AllUnrenamed(g, visible, scope, qs[1..]);
      assert ScopeAll(g.Bind(), visible, qs)[1..] == ScopeAll(g.Bind(), visible, qs[1..]);
    }
  }

  /** Rewriting by name preserves the meaning of an accepted query that has no renamed source, in every world. */
  lemma {:induction false} RewritePreservesMeaning<C, S, D(!new)>(w: World<C, S, D>, aliases: map<string, D>,
      names: map<string, D>, views: map<string, string>, q: Query<C, S>)
    requires Extensional(w) && Validate(q, aliases.Keys) == None
    requires ViewsShow(views, names, aliases) && FreshViews(w.refers, views, q) && !Renames(w.refers, views, q)
    ensures Eval(w, names, map[], Rewrite(views, q)) == Eval(w, aliases, map[], q)
  {
    var g := Setting(w, aliases, names, views, DeclaredNames(q));
    BindersAgree(ViewBinder<C, S>(views), q, aliases.Keys);
    AcceptsExactlyTheDisciplined(q, aliases.Keys);
    QueryUnrenamed(g, {}, map[], q);
  }

  // ---------- a world that tells apart whatever clauses look up ----------

  /** What a query was put together from, with names only where they are looked up. */
  datatype Trace =
    | Leaf
    | Selected(items: seq<(Option<string>, Trace)>, subqueries: seq<Trace>)
    | Combined(left: Trace, right: Trace)
    | Within(ctes: seq<Trace>, body: Trace)
    | Recursed(body: Trace)

  ghost function Tracing<C(!new), S(!new)>(refers: (C, string) -> bool): World<C, S, Trace> {
    World(refers,
          (c: C, items: seq<(Option<string>, Trace)>, subqueries: seq<Trace>) => Selected(items, subqueries),
          (c: C, l: Trace, r: Trace) => Combined(l, r),
          (ctes: seq<Trace>, body: Trace) => Within(ctes, body),
          (f: Trace -> Trace) => Recursed(f(Leaf)),
          (s: S) => Leaf, (n: string) => Leaf, (t: string) => Leaf)
  }

  ghost predicate Traced<C(!new), S(!new)>(g: Setting<C, S, Trace>) {
    Sound(g) && g.world == Tracing(g.world.refers)
  }

  // Whatever is in scope before and after the rewriting, a part with a renamed source is told apart.

  ghost function Before<C, S, D>(g: Setting<C, S, D>, before: map<string, D>, withs: With<C, S>): map<string, D> {
    EvalWith(g.world, g.aliases, before, withs.recursive, withs.ctes)
  }

  ghost function After<C, S, D>(g: Setting<C, S, D>, visible: set<string>, after: map<string, D>,
      withs: With<C, S>): map<string, D>
  {
    EvalWith(g.world, g.names, after, withs.recursive, BoundCtes(g, visible, withs.recursive, withs.ctes))
  }

  /** The common table expressions of a query are told apart. */
  ghost predicate CtesDiffer<C(!new), S(!new)>(g: Setting<C, S, Trace>, visible: set<string>,
      before: map<string, Trace>, after: map<string, Trace>, recursive: bool, ctes: seq<Cte<C, S>>)
  {
    EvalCtes(g.world, g.names, after, recursive, BoundCtes(g, visible, recursive, ctes))
    != EvalCtes(g.world, g.aliases, before, recursive, ctes)
  }

  ghost predicate ItemsDiffer<C(!new), S(!new)>(g: Setting<C, S, Trace>, visible: set<string>,
      before: map<string, Trace>, after: map<string, Trace>, bound: Query<C, S>, whole: Query<C, S>,
      items: seq<FromItem<C, S>>)
  {
    EvalFrom(g.world, g.names, after, bound, ScopeFrom(g.Bind(), visible, items))
    != EvalFrom(g.world, g.aliases, before, whole, items)
  }

  ghost predicate AllDiffer<C(!new), S(!new)>(g: Setting<C, S, Trace>, visible: set<string>,
      before: map<string, Trace>, after: map<string, Trace>, qs: seq<Query<C, S>>)
  {
    EvalAll(g.world, g.names, after, ScopeAll(g.Bind(), visible, qs)) != EvalAll(g.world, g.aliases, before, qs)
  }

  ghost predicate QueriesDiffer<C(!new), S(!new)>(g: Setting<C, S, Trace>, visible: set<string>,
      before: map<string, Trace>, after: map<string, Trace>, q: Query<C, S>)
  {
    Eval(g.world, g.names, after, Bound(g, visible, q)) != Eval(g.world, g.aliases, before, q)
  }

  lemma {:induction false} SelectDiffers<C(!new), S(!new)>(g: Setting<C, S, Trace>, visible: set<string>,
      before: map<string, Trace>, after: map<string, Trace>, q: Query<C, S>)
    requires Traced(g) && q.Select?
    requires var seen, b, a := visible + CteNames(q.withs.ctes), Before(g, before, q.withs),
                               After(g, visible, after, q.withs);
             || CtesDiffer(g, visible, before, after, q.withs.recursive, q.withs.ctes)
             || ItemsDiffer(g, seen, b, a, Bound(g, visible, q), q, q.from)
             || AllDiffer(g, seen, b, a, q.subqueries)
    ensures QueriesDiffer(g, visible, before, after, q)
  {
  }

  lemma {:induction false} SetOperationDiffers<C(!new), S(!new)>(g: Setting<C, S, Trace>, visible: set<string>,
      before: map<string, Trace>, after: map<string, Trace>, q: Query<C, S>)
    requires Traced(g) && q.SetOperation?
    requires var seen, b, a := visible + CteNames(q.withs.ctes), Before(g, before, q.withs),
                               After(g, visible, after, q.withs);
             || CtesDiffer(g, visible, before, after, q.withs.recursive, q.withs.ctes)
             || QueriesDiffer(g, seen, b, a, q.left)
             || QueriesDiffer(g, seen, b, a, q.right)
    ensures QueriesDiffer(g, visible, before, after, q)
  {
  }

  lemma {:induction false} CleanSelect<C, S, D(!new)>(g: Setting<C, S, D>, visible: set<string>, q: Query<C, S>)
    requires Knows(g, visible) && CleanQuery(g, visible, q) && q.Select?
    ensures var seen := visible + CteNames(q.withs.ctes);
            && CleanWith(g, visible, q.withs.recursive, q.withs.ctes) && Knows(g, seen)
            && CleanFrom(g, seen, q.from) && CleanAll(g, seen, q.subqueries)
  {
    KnowsCtes(g, visible, q.withs.recursive, q.withs.ctes);
  }

  lemma {:induction false} CleanSetOperation<C, S, D(!new)>(g: Setting<C, S, D>, visible: set<string>, q: Query<C, S>)
    requires Knows(g, visible) && CleanQuery(g, visible, q) && q.SetOperation?
    ensures var seen := visible + CteNames(q.withs.ctes);
            && CleanWith(g, visible, q.withs.recursive, q.withs.ctes) && Knows(g, seen)
            && CleanQuery(g, seen, q.left) && CleanQuery(g, seen, q.right)
  {
    KnowsCtes(g, visible, q.withs.recursive, q.withs.ctes);
  }

  lemma {:induction false} SelectRenamed<C(!new), S(!new)>(g: Setting<C, S, Trace>, visible: set<string>,
      before: map<string, Trace>, after: map<string, Trace>, q: Query<C, S>)
    requires Traced(g) && Knows(g, visible) && CleanQuery(g, visible, q)
    requires q.Select? && Renames(g.world.refers, g.views, q)
    ensures QueriesDiffer(g, visible, before, after, q)
    decreases q, 0
  {
    var seen := visible + CteNames(q.withs.ctes);
    var b, a := Before(g, before, q.withs), After(g, visible, after, q.withs);
    CleanSelect(g, visible, q);
    if RenamesWith(g.world.refers, g.views, q.withs.ctes) {
      WithRenamed(g, visible, before, after, q.withs.recursive, q.withs.ctes);
    } else if RenamesFrom(g.world.refers, g.views, q, q.from) {
      forall view | IsView(g, view) ensures !LooksUp(g.world.refers, Bound(g, visible, q), view) {
        ViewNotLookedUp(g, visible, q, view);
      }
      ItemsRenamed(g, seen, b, a, Bound(g, visible, q), q, q.from);
    } else {
      AllRenamed(g, seen, b, a, q.subqueries);
    }
    SelectDiffers(g, visible, before, after, q);
  }

  lemma {:induction false} SetOperationRenamed<C(!new), S(!new)>(g: Setting<C, S, Trace>, visible: set<string>,
      before: map<string, Trace>, after: map<string, Trace>, q: Query<C, S>)
    requires Traced(g) && Knows(g, visible) && CleanQuery(g, visible, q)
    requires q.SetOperation? && Renames(g.world.refers, g.views, q)
    ensures QueriesDiffer(g, visible, before, after, q)
    decreases q, 0
  {
    var seen := visible + CteNames(q.withs.ctes);
    var b, a := Before(g, before, q.withs), After(g, visible, after, q.withs);
    CleanSetOperation(g, visible, q);
    if RenamesWith(g.world.refers, g.views, q.withs.ctes) {
      WithRenamed(g, visible, before, after, q.withs.recursive, q.withs.ctes);
    } else if Renames(g.world.refers, g.views, q.left) {
      QueryRenamed(g, seen, b, a, q.left);
    } else {
      QueryRenamed(g, seen, b, a, q.right);
    }
    SetOperationDiffers(g, visible, before, after, q);
  }

  lemma {:induction false} QueryRenamed<C(!new), S(!new)>(g: Setting<C, S, Trace>, visible: set<string>,
      before: map<string, Trace>, after: map<string, Trace>, q: Query<C, S>)
    requires Traced(g) && Knows(g, visible) && CleanQuery(g, visible, q)
    requires Renames(g.world.refers, g.views, q)
    ensures QueriesDiffer(g, visible, before, after, q)
    decreases q, 1
  {
    if q.Select? {
      SelectRenamed(g, visible, before, after, q);
    } else {
      SetOperationRenamed(g, visible, before, after, q);
    }
  }

  lemma {:induction false} CteRenamed<C(!new), S(!new)>(g: Setting<C, S, Trace>, visible: set<string>,
      before: map<string, Trace>, after: map<string, Trace>, recursive: bool, cte: Cte<C, S>)
    requires Traced(g) && Knows(g, visible) && Fold(cte.name) in g.taken
    requires CleanQuery(g, BodyScope(visible, recursive, cte), cte.body)
    requires Renames(g.world.refers, g.views, cte.body)
    ensures EvalCte(g.world, g.names, after, recursive, BoundCte(g, visible, recursive, cte))
         != EvalCte(g.world, g.aliases, before, recursive, cte)
    decreases cte, 2
  {
    if SeesItself(recursive, cte) {
      QueryRenamed(g, visible + {cte.name}, before[Fold(cte.name) := Leaf], after[Fold(cte.name) := Leaf], cte.body);
    } else {
      QueryRenamed(g, visible, before, after, cte.body);
    }
  }

  lemma {:induction false} WithRenamed<C(!new), S(!new)>(g: Setting<C, S, Trace>, visible: set<string>,
      before: map<string, Trace>, after: map<string, Trace>, recursive: bool, ctes: seq<Cte<C, S>>)
    requires Traced(g) && Knows(g, visible) && CleanWith(g, visible, recursive, ctes)
    requires RenamesWith(g.world.refers, g.views, ctes)
    ensures CtesDiffer(g, visible, before, after, recursive, ctes)
    decreases ctes, 0
  {
    var cte, bound := ctes[0], BoundCtes(g, visible, recursive, ctes);
    CleanParts(g, visible, recursive, ctes);
    BoundFirst(g, visible, recursive, ctes);
    var x, y := EvalCtes(g.world, g.names, after, recursive, bound),
                EvalCtes(g.world, g.aliases, before, recursive, ctes);
    if Renames(g.world.refers, g.views, cte.body) {
      CteRenamed(g, visible, before, after, recursive, cte);
      assert x[0] != y[0];
    } else {
      var b := before[Fold(cte.name) := EvalCte(g.world, g.aliases, before, recursive, cte)];
      var a := after[Fold(cte.name) := EvalCte(g.world, g.names, after, recursive, bound[0])];
      WithRenamed(g, visible + {cte.name}, b, a, recursive, ctes[1..]);
      assert x[1..] != y[1..];
    }
  }

  /** A renamed item is told apart by its label or by what it denotes. */
  lemma {:induction false} ItemRenamed<C(!new), S(!new)>(g: Setting<C, S, Trace>, visible: set<string>,
      before: map<string, Trace>, after: map<string, Trace>, bound: Query<C, S>, whole: Query<C, S>,
      boundLater: seq<FromItem<C, S>>, later: seq<FromItem<C, S>>, item: FromItem<C, S>)
    requires Traced(g) && Knows(g, visible) && CleanItem(g, visible, item)
    requires RenamesItem(g.world.refers, g.views, whole, later, item)
    requires forall view :: IsView(g, view) ==> !IsSought(g.world.refers, bound, boundLater, view)
    ensures var rewritten := ScopeItem(g.Bind(), visible, item);
            || Label(g.world.refers, bound, boundLater, rewritten) != Label(g.world.refers, whole, later, item)
            || EvalItem(g.world, g.names, after, rewritten) != EvalItem(g.world, g.aliases, before, item)
    decreases item, 2
  {
    match item
    case Table(name, alias) =>
      assert name !in visible;
      assert IsView(g, Fold(g.views[Fold(name)]));
    case Derived(body, _) => QueryRenamed(g, visible, before, after, body);
    case Foreign(_, _) =>
  }

  lemma {:induction false} ItemsDifferFrom<C(!new), S(!new)>(g: Setting<C, S, Trace>, visible: set<string>,
      before: map<string, Trace>, after: map<string, Trace>, bound: Query<C, S>, whole: Query<C, S>,
      items: seq<FromItem<C, S>>)
    requires items != []
    requires var first, later := ScopeItem(g.Bind(), visible, items[0]), ScopeFrom(g.Bind(), visible, items[1..]);
             || Label(g.world.refers, bound, later, first) != Label(g.world.refers, whole, items[1..], items[0])
             || EvalItem(g.world, g.names, after, first) != EvalItem(g.world, g.aliases, before, items[0])
             || ItemsDiffer(g, visible, before, after, bound, whole, items[1..])
    ensures ItemsDiffer(g, visible, before, after, bound, whole, items)
  {
    var rewritten := ScopeFrom(g.Bind(), visible, items);
    assert rewritten[1..] == ScopeFrom(g.Bind(), visible, items[1..]);
    var x, y := EvalFrom(g.world, g.names, after, bound, rewritten), EvalFrom(g.world, g.aliases, before, whole, items);
    assert x[1..] == EvalFrom(g.world, g.names, after, bound, rewritten[1..]);
    assert y[1..] == EvalFrom(g.world, g.aliases, before, whole, items[1..]);
    assert x[0] != y[0] || x[1..] != y[1..];
  }

  lemma {:induction false} ItemsRenamed<C(!new), S(!new)>(g: Setting<C, S, Trace>, visible: set<string>,
      before: map<string, Trace>, after: map<string, Trace>, bound: Query<C, S>, whole: Query<C, S>,
      items: seq<FromItem<C, S>>)
    requires Traced(g) && Knows(g, visible) && CleanFrom(g, visible, items)
    requires RenamesFrom(g.world.refers, g.views, whole, items)
    requires forall view :: IsView(g, view) ==> !LooksUp(g.world.refers, bound, view)
    ensures ItemsDiffer(g, visible, before, after, bound, whole, items)
    decreases items, 0
  {
    if RenamesItem(g.world.refers, g.views, whole, items[1..], items[0]) {
      var later := ScopeFrom(g.Bind(), visible, items[1..]);
      forall view | IsView(g, view) ensures !IsSought(g.world.refers, bound, later, view) {
        ViewNotOpenInFrom(g, visible, items[1..], view);
      }
      ItemRenamed(g, visible, before, after, bound, whole, later, items[1..], items[0]);
    } else {
      ItemsRenamed(g, visible, before, after, bound, whole, items[1..]);
    }
    ItemsDifferFrom(g, visible, before, after, bound, whole, items);
  }

  lemma {:induction false} AllRenamed<C(!new), S(!new)>(g: Setting<C, S, Trace>, visible: set<string>,
      before: map<string, Trace>, after: map<string, Trace>, qs: seq<Query<C, S>>)
    requires Traced(g) && Knows(g, visible) && CleanAll(g, visible, qs) && RenamesAll(g.world.refers, g.views, qs)
    ensures AllDiffer(g, visible, before, after, qs)
    decreases qs, 0
  {
    var rewritten := ScopeAll(g.Bind(), visible, qs);
    var x, y := EvalAll(g.world, g.names, after, rewritten), EvalAll(g.world, g.aliases, before, qs);
    assert rewritten[1..] == ScopeAll(g.Bind(), visible, qs[1..]);
    if Renames(g.world.refers, g.views, qs[0]) {
      QueryRenamed(g, visible, before, after, qs[0]);
      assert x[0] != y[0];
    } else {
      AllRenamed(g, visible, before, after, qs[1..]);
      assert x[1..] != y[1..];
    }
  }

  /** In every world in which clauses qualify columns by these names, the rewriting means what the query means. */
  ghost predicate PreservedInAllWorlds<C(!new), S(!new)>(refers: (C, string) -> bool, views: map<string, string>,
      q: Query<C, S>)
  {
    forall w: World<C, S, Trace>, aliases: map<string, Trace>, names: map<string, Trace>
      {:trigger Eval(w, names, map[], Rewrite(views, q)), ViewsShow(views, names, aliases)} ::
      w.refers == refers && Extensional(w) && ViewsShow(views, names, aliases) ==>
        Eval(w, names, map[], Rewrite(views, q)) == Eval(w, aliases, map[], q)
  }

  lemma {:induction false} RenamedIsTraced<C(!new), S(!new)>(w: World<C, S, Trace>, aliases: map<string, Trace>,
      names: map<string, Trace>, views: map<string, string>, q: Query<C, S>)
    requires w == Tracing(w.refers) && Validate(q, aliases.Keys) == None && ViewsShow(views, names, aliases)
    requires FreshViews(w.refers, views, q) && Renames(w.refers, views, q)
    ensures Eval(w, names, map[], Rewrite(views, q)) != Eval(w, aliases, map[], q)
  {
    var g := Setting(w, aliases, names, views, DeclaredNames(q));
    BindersAgree(ViewBinder<C, S>(views), q, aliases.Keys);
    AcceptsExactlyTheDisciplined(q, aliases.Keys);
    QueryRenamed(g, {}, map[], map[], q);
  }

  /**
   Rewriting by name preserves the meaning of an accepted query in all worlds if and only if the query has
   no source that loses a name it is looked up by: one without an alias, whose own name qualifies a column
   somewhere that sees it, be it in a subquery, a derived table or a common table expression of either. A
   source that nothing qualifies columns by keeps its meaning.
   */
  lemma {:induction false} RewritePreservesExactlyWhen<C(!new), S(!new)>(refers: (C, string) -> bool,
      views: map<string, string>, q: Query<C, S>)
    requires Validate(q, views.Keys) == None && FreshViews(refers, views, q)
    ensures PreservedInAllWorlds(refers, views, q) <==> !Renames(refers, views, q)
  {
    if Renames(refers, views, q) {
      var aliases: map<string, Trace> := map a | a in views :: Leaf;
      var names: map<string, Trace> := map n | n in ViewNames(views) :: Leaf;
      assert ViewsShow(views, names, aliases);
      RenamedIsTraced(Tracing(refers), aliases, names, views, q);
    } else {
      forall w: World<C, S, Trace>, aliases: map<string, Trace>, names: map<string, Trace>
        | w.refers == refers && Extensional(w) && ViewsShow(views, names, aliases)
        ensures Eval(w, names, map[], Rewrite(views, q)) == Eval(w, aliases, map[], q)
      {
        RewritePreservesMeaning(w, aliases, names, views, q);
      }
    }
  }

  // ---------- three inputs ----------

  /** Clauses given by the names they qualify columns by: none in SELECT *, a in SELECT a.id. */
  function Qualifiers(): (set<string>, string) -> bool {
    (names: set<string>, name: string) => name in names
  }

  function FromBare(qualified: set<string>): Query<set<string>, string> {
    Select(With(false, []), [Table("a", None)], [], qualified)
  }

  lemma {:induction false} BareIsRenamed(qualified: set<string>)
    ensures Validate(FromBare(qualified), {"a"}) == None
    ensures Renames(Qualifiers(), map["a" := "v"], FromBare(qualified)) <==> "a" in qualified
    ensures "v" !in qualified ==> FreshViews(Qualifiers(), map["a" := "v"], FromBare(qualified))
  {
    assert Fold("a") == "a" && Fold("v") == "v";
    var q := FromBare(qualified);
    assert NodesOfFrom({}, q.from) == {Source("a", None)};
    assert Nodes({}, q) == {Source("a", None)};
    assert DeclaredNames(q) == {};
    assert ClausesInFrom(q.from) == {} && ClausesInAll(q.subqueries) == {} && ClausesInWith(q.withs.ctes) == {};
    assert !OpenInFrom(Qualifiers(), q.from[1..], "a") && !OpenInAll(Qualifiers(), q.subqueries, "a");
    assert LooksUp(Qualifiers(), q, "a") <==> "a" in qualified;
    assert !RenamesFrom(Qualifiers(), map["a" := "v"], q, q.from[1..]);
  }

  /** SELECT a.id FROM a loses its meaning. */
  lemma {:induction false} QualifiedNameIsLost()
    ensures !PreservedInAllWorlds(Qualifiers(), map["a" := "v"], FromBare({"a"}))
  {
    BareIsRenamed({"a"});
    RewritePreservesExactlyWhen(Qualifiers(), map["a" := "v"], FromBare({"a"}));
  }

  /** SELECT * FROM a keeps it. */
  lemma {:induction false} BareStarIsKept()
    ensures PreservedInAllWorlds(Qualifiers(), map["a" := "v"], FromBare({}))
  {
    BareIsRenamed({});
    RewritePreservesExactlyWhen(Qualifiers(), map["a" := "v"], FromBare({}));
  }

  /** SELECT (WITH c AS (SELECT a.id) SELECT max(x) FROM c) FROM a */
  function FromBareThroughCte(): Query<set<string>, string> {
    var body := Select(With(false, []), [], [], {"a"});
    var subquery := Select(With(false, [Cte("c", body)]), [Table("c", None)], [], {});
    Select(With(false, []), [Table("a", None)], [subquery], {})
  }

  lemma {:induction false} NodesThroughCte()
    ensures Nodes({}, FromBareThroughCte()) == {Source("a", None), Declares("c"), CteReference("c")}
    ensures ClausesIn(FromBareThroughCte()) == {{"a"}, {}}
  {
    var q := FromBareThroughCte();
    var subquery := q.subqueries[0];
    var cte := subquery.withs.ctes[0];
    assert Nodes({}, cte.body) == {} && ClausesIn(cte.body) == {{"a"}};
    assert subquery.withs.ctes[1..] == [] && NodesOfWith({}, false, subquery.withs.ctes) == {Declares("c")};
    assert ClausesInWith(subquery.withs.ctes) == {{"a"}};
    assert NodesOfFrom({"c"}, subquery.from) == {CteReference("c")};
    assert CteNames(subquery.withs.ctes) == {"c"} && {} + {"c"} == {"c"};
    assert Nodes({}, subquery) == {Declares("c"), CteReference("c")} && ClausesIn(subquery) == {{"a"}, {}};
    assert q.subqueries[1..] == [] && NodesOfAll({}, q.subqueries) == Nodes({}, subquery);
    assert ClausesInAll(q.subqueries) == ClausesIn(subquery);
    assert NodesOfFrom({}, q.from) == {Source("a", None)} && {} + CteNames(q.withs.ctes) == {};
  }

  lemma {:induction false} ThroughCteIsAccepted()
    ensures Validate(FromBareThroughCte(), {"a"}) == None
    ensures FreshViews(Qualifiers(), map["a" := "v"], FromBareThroughCte())
  {
    NodesThroughCte();
    assert Fold("a") == "a" && Fold("v") == "v" && Fold("c") == "c";
  }

  /** It loses its meaning too: the name reaches the source from a common table expression of a subquery. */
  lemma {:induction false} NameIsLostThroughCte()
    ensures !PreservedInAllWorlds(Qualifiers(), map["a" := "v"], FromBareThroughCte())
  {
    var q, views := FromBareThroughCte(), map["a" := "v"];
    ThroughCteIsAccepted();
    assert Fold("a") == "a" && Fold("v") == "v";
    var subquery := q.subqueries[0];
    assert LooksUp(Qualifiers(), subquery.withs.ctes[0].body, "a");
    assert OpenInWith(Qualifiers(), subquery.withs.ctes, "a");
    assert LooksUp(Qualifiers(), q, "a") && RenamesItem(Qualifiers(), views, q, q.from[1..], q.from[0]);
    RewritePreservesExactlyWhen(Qualifiers(), views, q);
  }

  /**
   What goes wrong: an engine that finds a column by its qualifier answers the query, and the compiled
   query, but not the rewritten one.
   */
  lemma {:induction false} RewriteLosesBareNames()
    ensures var w := World(Qualifiers(),
                           (c: set<string>, items: seq<(Option<string>, int)>, subs: seq<int>) =>
                             if |items| == 1 && items[0].0 == Some("a") then items[0].1 else -1,
                           (c: set<string>, l: int, r: int) => l, (ctes: seq<int>, d: int) => d,
                           (f: int -> int) => f(0),
                           (s: string) => 7, (n: string) => 0, (t: string) => 0);
            var q := FromBare({"a"});
            && Validate(q, {"a"}) == None
            && Eval(w, map["a" := 7], map[], q) == 7
            && Eval(w, map["v" := 7], map[], Rewrite(map["a" := "v"], q)) == -1
            && Eval(w, map[], map[], Compile(map["a" := "s3"], q)) == 7
  {
    assert Fold("a") == "a" && Fold("v") == "v";
    BareIsRenamed({"a"});
    var q := FromBare({"a"});
    assert DeclaredNames(q) == {} by {
      assert NodesOfFrom({}, q.from) == {Source("a", None)};
      assert Nodes({}, q) == {Source("a", None)};
    }
    var bind := ViewBinder<set<string>, string>(map["a" := "v"]);
    assert NameFrom(bind, {}, {"a"}, q.from) == [Table("v", None)];
    assert NameAll(bind, {}, {"a"}, q.subqueries) == [];
    assert Rewrite(map["a" := "v"], q) == Select(With(false, []), [Table("v", None)], [], {"a"});
    var compiled := Compile(map["a" := "s3"], q);
    var storage := StorageBinder<set<string>, string>(map["a" := "s3"]);
    assert ScopeFrom(storage, {} + CteNames(q.withs.ctes), q.from) == [Derived(Storage("s3"), Some("a"))];
    assert ScopeAll(storage, {} + CteNames(q.withs.ctes), q.subqueries) == [];
    assert compiled == Select(With(false, []), [Derived(Storage("s3"), Some("a"))], [], {"a"});
    assert LooksUp(Qualifiers(), compiled, "a");
  }
}
