/**
 Binding sources preserves the meaning of every accepted query, in every world: whatever the clauses
 do, and whatever relations the engine itself offers.
 */
module SqlMeaning {
  import opened Wrappers
  import opened Sql
  import opened SqlBinding

  /**
   A query is read with sources bound to its aliases in one world, and its bound form is evaluated
   with other names in another. The two worlds differ at most in the engine's own relations.
   */
  datatype Binding<!C, !S, !D> = Binding(
    world: World<C, S, D>,
    aliases: map<string, D>,
    engine: World<C, S, D>,
    names: map<string, D>,
    bind: (string, Option<string>) -> FromItem<C, S>,
    taken: set<string>)

  ghost predicate SameOperations<C, S, D(!new)>(v: World<C, S, D>, w: World<C, S, D>) {
    v == w.(base := v.base, foreign := v.foreign) && Extensional(w)
  }

  ghost predicate Coherent<C, S, D(!new)>(b: Binding<C, S, D>) {
    SameOperations(b.engine, b.world) && b.aliases.Keys !! b.taken
  }

  /** What replaces a source keeps its visible name, leaves no name open, and denotes the source's relation. */
  ghost predicate Faithful<C, S, D(!new)>(b: Binding<C, S, D>, name: string, alias: Option<string>) {
    && Fold(name) in b.aliases
    && VisibleName(b.bind(name, alias)) == VisibleName<C, S>(Table(name, alias))
    && (forall n :: !OpenInItem(b.world.refers, b.bind(name, alias), n))
    && forall scope: map<string, D> :: scope.Keys <= b.taken ==>
         EvalItem(b.engine, b.names, scope, b.bind(name, alias)) == b.aliases[Fold(name)]
  }

  ghost predicate Bindable<C, S, D(!new)>(b: Binding<C, S, D>, nodes: set<Node>) {
    && Disciplined(nodes, b.taken, b.aliases.Keys)
    && forall n, a :: Source(n, a) in nodes ==> Faithful(b, n, a)
  }

  ghost predicate Covers<C, S, D(!new)>(b: Binding<C, S, D>, visible: set<string>, scope: map<string, D>) {
    scope.Keys <= b.taken && forall v :: v in visible ==> Fold(v) in scope
  }

  // ---------- names are looked up where they were ----------

  lemma {:induction false} LookUpKept<C, S, D(!new)>(b: Binding<C, S, D>, visible: set<string>, q: Query<C, S>,
      name: string)
    requires Bindable(b, Nodes(visible, q))
    ensures LooksUp(b.world.refers, BindByScope(b.bind, visible, q), name) == LooksUp(b.world.refers, q, name)
    decreases q, 0
  {
    match q
    case Storage(_) =>
    case Select(withs, _, subqueries, _) =>
      OpenInAllKept(b, visible + CteNames(withs.ctes), subqueries, name);
    case SetOperation(withs, left, right, _) =>
      OpenKept(b, visible + CteNames(withs.ctes), left, name);
      OpenKept(b, visible + CteNames(withs.ctes), right, name);
  }

  lemma {:induction false} OpenKept<C, S, D(!new)>(b: Binding<C, S, D>, visible: set<string>, q: Query<C, S>,
      name: string)
    requires Bindable(b, Nodes(visible, q))
    ensures Open(b.world.refers, BindByScope(b.bind, visible, q), name) == Open(b.world.refers, q, name)
    decreases q, 1
  {
    LookUpKept(b, visible, q, name);
    if q.Select? {
      NamesKept(b, visible + CteNames(q.withs.ctes), q.from);
      OpenInFromKept(b, visible + CteNames(q.withs.ctes), q.from, name);
    }
    if !q.Storage? {
      OpenInWithKept(b, visible, q.withs.recursive, q.withs.ctes, name);
    }
  }

  lemma {:induction false} OpenInWithKept<C, S, D(!new)>(b: Binding<C, S, D>, visible: set<string>, recursive: bool,
      ctes: seq<Cte<C, S>>, name: string)
    requires Bindable(b, NodesOfWith(visible, recursive, ctes))
    ensures OpenInWith(b.world.refers, ScopeWith(b.bind, visible, recursive, ctes), name) ==
              OpenInWith(b.world.refers, ctes, name)
    decreases ctes, 0
  {
    if ctes != [] {
      OpenKept(b, BodyScope(visible, recursive, ctes[0]), ctes[0].body, name);
      OpenInWithKept(b, visible + {ctes[0].name}, recursive, ctes[1..], name);
      var bound := ScopeWith(b.bind, visible, recursive, ctes);
      assert bound[1..] == ScopeWith(b.bind, visible + {ctes[0].name}, recursive, ctes[1..]);
    }
  }

  lemma {:induction false} NamesKept<C, S, D(!new)>(b: Binding<C, S, D>, visible: set<string>,
      items: seq<FromItem<C, S>>)
    requires Bindable(b, NodesOfFrom(visible, items))
    ensures VisibleNames(ScopeFrom(b.bind, visible, items)) == VisibleNames(items)
  {
    if items != [] {
      ItemNameKept(b, visible, items[0]);
      NamesKept(b, visible, items[1..]);
      assert ScopeFrom(b.bind, visible, items)[1..] == ScopeFrom(b.bind, visible, items[1..]);
    }
  }

  lemma {:induction false} ItemNameKept<C, S, D(!new)>(b: Binding<C, S, D>, visible: set<string>, item: FromItem<C, S>)
    requires Bindable(b, NodesOfItem(visible, item))
    ensures VisibleName(ScopeItem(b.bind, visible, item)) == VisibleName(item)
  {
    if item.Table? && item.name !in visible {
      assert Source(item.name, item.alias) in NodesOfItem(visible, item);
      assert Faithful(b, item.name, item.alias);
    }
  }

  lemma {:induction false} OpenInItemKept<C, S, D(!new)>(b: Binding<C, S, D>, visible: set<string>,
      item: FromItem<C, S>, name: string)
    requires Bindable(b, NodesOfItem(visible, item))
    ensures OpenInItem(b.world.refers, ScopeItem(b.bind, visible, item), name) == OpenInItem(b.world.refers, item, name)
    decreases item, 2
  {
    match item
    case Table(source, alias) =>
      if source !in visible {
        assert Source(source, alias) in NodesOfItem(visible, item);
        assert Faithful(b, source, alias);
      }
    case Derived(body, _) => OpenKept(b, visible, body, name);
    case Foreign(_, _) =>
  }

  lemma {:induction false} OpenInFromKept<C, S, D(!new)>(b: Binding<C, S, D>, visible: set<string>,
      items: seq<FromItem<C, S>>, name: string)
    requires Bindable(b, NodesOfFrom(visible, items))
    ensures OpenInFrom(b.world.refers, ScopeFrom(b.bind, visible, items), name) ==
              OpenInFrom(b.world.refers, items, name)
    decreases items, 0
  {
    if items != [] {
      OpenInItemKept(b, visible, items[0], name);
      ItemNameKept(b, visible, items[0]);
      OpenInFromKept(b, visible, items[1..], name);
      assert ScopeFrom(b.bind, visible, items)[1..] == ScopeFrom(b.bind, visible, items[1..]);
    }
  }

  lemma {:induction false} OpenInAllKept<C, S, D(!new)>(b: Binding<C, S, D>, visible: set<string>,
      qs: seq<Query<C, S>>, name: string)
    requires Bindable(b, NodesOfAll(visible, qs))
    ensures OpenInAll(b.world.refers, ScopeAll(b.bind, visible, qs), name) == OpenInAll(b.world.refers, qs, name)
    decreases qs, 0
  {
    if qs != [] {
      OpenKept(b, visible, qs[0], name);
      OpenInAllKept(b, visible, qs[1..], name);
      assert ScopeAll(b.bind, visible, qs)[1..] == ScopeAll(b.bind, visible, qs[1..]);
    }
  }

  // ---------- meanings are kept ----------

  lemma {:induction false} QueryKept<C, S, D(!new)>(b: Binding<C, S, D>, visible: set<string>, scope: map<string, D>,
      q: Query<C, S>)
    requires Coherent(b) && Covers(b, visible, scope) && Bindable(b, Nodes(visible, q))
    ensures Eval(b.engine, b.names, scope, BindByScope(b.bind, visible, q)) == Eval(b.world, b.aliases, scope, q)
    decreases q, 1
  {
    match q
    case Storage(_) =>
    case Select(withs, from, subqueries, _) =>
      var inner := EvalWith(b.world, b.aliases, scope, withs.recursive, withs.ctes);
      WithKept(b, visible, scope, withs.recursive, withs.ctes);
      forall name
        ensures LooksUp(b.world.refers, BindByScope(b.bind, visible, q), name) == LooksUp(b.world.refers, q, name)
      {
        LookUpKept(b, visible, q, name);
      }
      ItemsKept(b, visible + CteNames(withs.ctes), inner, BindByScope(b.bind, visible, q), q, from);
      AllKept(b, visible + CteNames(withs.ctes), inner, subqueries);
    case SetOperation(withs, left, right, _) =>
      var inner := EvalWith(b.world, b.aliases, scope, withs.recursive, withs.ctes);
      WithKept(b, visible, scope, withs.recursive, withs.ctes);
      QueryKept(b, visible + CteNames(withs.ctes), inner, left);
      QueryKept(b, visible + CteNames(withs.ctes), inner, right);
  }

  lemma {:induction false} CteKept<C, S, D(!new)>(b: Binding<C, S, D>, visible: set<string>, scope: map<string, D>,
      recursive: bool, cte: Cte<C, S>)
    requires Coherent(b) && Covers(b, visible, scope) && Fold(cte.name) in b.taken
    requires Bindable(b, Nodes(BodyScope(visible, recursive, cte), cte.body))
    ensures EvalCte(b.engine, b.names, scope, recursive,
              Cte(cte.name, BindByScope(b.bind, BodyScope(visible, recursive, cte), cte.body)))
         == EvalCte(b.world, b.aliases, scope, recursive, cte)
    decreases cte, 2
  {
    var body := BindByScope(b.bind, BodyScope(visible, recursive, cte), cte.body);
    if SeesItself(recursive, cte) {
      var f: D -> D := d => Eval(b.engine, b.names, scope[Fold(cte.name) := d], body);
      var g: D -> D := d => Eval(b.world, b.aliases, scope[Fold(cte.name) := d], cte.body);
      forall d ensures f(d) == g(d) {
        QueryKept(b, visible + {cte.name}, scope[Fold(cte.name) := d], cte.body);
      }
      assert b.world.recursion(f) == b.world.recursion(g);
    } else {
      QueryKept(b, visible, scope, cte.body);
    }
  }

  lemma {:induction false} CoversNext<C, S, D(!new)>(b: Binding<C, S, D>, visible: set<string>, scope: map<string, D>,
      name: string, d: D)
    requires Covers(b, visible, scope) && Fold(name) in b.taken
    ensures Covers(b, visible + {name}, scope[Fold(name) := d])
  {
  }

  lemma {:induction false} WithKept<C, S, D(!new)>(b: Binding<C, S, D>, visible: set<string>, scope: map<string, D>,
      recursive: bool, ctes: seq<Cte<C, S>>)
    requires Coherent(b) && Covers(b, visible, scope) && Bindable(b, NodesOfWith(visible, recursive, ctes))
    ensures EvalWith(b.engine, b.names, scope, recursive, ScopeWith(b.bind, visible, recursive, ctes))
         == EvalWith(b.world, b.aliases, scope, recursive, ctes)
    ensures EvalCtes(b.engine, b.names, scope, recursive, ScopeWith(b.bind, visible, recursive, ctes))
         == EvalCtes(b.world, b.aliases, scope, recursive, ctes)
    ensures Covers(b, visible + CteNames(ctes), EvalWith(b.world, b.aliases, scope, recursive, ctes))
    decreases ctes, 0
  {
    if ctes == [] {
      assert visible + CteNames(ctes) == visible;
    } else {
      assert Declares(ctes[0].name) in NodesOfWith(visible, recursive, ctes);
      CteKept(b, visible, scope, recursive, ctes[0]);
      var next := scope[Fold(ctes[0].name) := EvalCte(b.world, b.aliases, scope, recursive, ctes[0])];
      CoversNext(b, visible, scope, ctes[0].name, next[Fold(ctes[0].name)]);
      WithKept(b, visible + {ctes[0].name}, next, recursive, ctes[1..]);
      assert visible + CteNames(ctes) == visible + {ctes[0].name} + CteNames(ctes[1..]);
      var bound := ScopeWith(b.bind, visible, recursive, ctes);
      assert bound[1..] == ScopeWith(b.bind, visible + {ctes[0].name}, recursive, ctes[1..]);
    }
  }

  lemma {:induction false} ItemKept<C, S, D(!new)>(b: Binding<C, S, D>, visible: set<string>, scope: map<string, D>,
      item: FromItem<C, S>)
    requires Coherent(b) && Covers(b, visible, scope) && Bindable(b, NodesOfItem(visible, item))
    ensures EvalItem(b.engine, b.names, scope, ScopeItem(b.bind, visible, item)) ==
              EvalItem(b.world, b.aliases, scope, item)
    decreases item, 2
  {
    match item
    case Table(name, alias) =>
      if name !in visible {
        assert Source(name, alias) in NodesOfItem(visible, item);
        assert Faithful(b, name, alias);
      }
    case Derived(body, _) => QueryKept(b, visible, scope, body);
    case Foreign(_, _) =>
  }

  lemma {:induction false} LabelKept<C, S, D(!new)>(b: Binding<C, S, D>, visible: set<string>, bound: Query<C, S>,
      whole: Query<C, S>, item: FromItem<C, S>, later: seq<FromItem<C, S>>)
    requires Bindable(b, NodesOfItem(visible, item)) && Bindable(b, NodesOfFrom(visible, later))
    requires forall name :: LooksUp(b.world.refers, bound, name) == LooksUp(b.world.refers, whole, name)
    ensures Label(b.world.refers, bound, ScopeFrom(b.bind, visible, later), ScopeItem(b.bind, visible, item))
         == Label(b.world.refers, whole, later, item)
  {
    ItemNameKept(b, visible, item);
    OpenInFromKept(b, visible, later, Fold(VisibleName(item)));
  }

  lemma {:induction false} ItemsKept<C, S, D(!new)>(b: Binding<C, S, D>, visible: set<string>, scope: map<string, D>,
      bound: Query<C, S>, whole: Query<C, S>, items: seq<FromItem<C, S>>)
    requires Coherent(b) && Covers(b, visible, scope) && Bindable(b, NodesOfFrom(visible, items))
    requires forall name :: LooksUp(b.world.refers, bound, name) == LooksUp(b.world.refers, whole, name)
    ensures EvalFrom(b.engine, b.names, scope, bound, ScopeFrom(b.bind, visible, items)) ==
              EvalFrom(b.world, b.aliases, scope, whole, items)
    decreases items, 0
  {
    if items != [] {
      ItemKept(b, visible, scope, items[0]);
      LabelKept(b, visible, bound, whole, items[0], items[1..]);
      ItemsKept(b, visible, scope, bound, whole, items[1..]);
      assert ScopeFrom(b.bind, visible, items)[1..] == ScopeFrom(b.bind, visible, items[1..]);
    }
  }

  lemma {:induction false} AllKept<C, S, D(!new)>(b: Binding<C, S, D>, visible: set<string>, scope: map<string, D>,
      qs: seq<Query<C, S>>)
    requires Coherent(b) && Covers(b, visible, scope) && Bindable(b, NodesOfAll(visible, qs))
    ensures EvalAll(b.engine, b.names, scope, ScopeAll(b.bind, visible, qs)) == EvalAll(b.world, b.aliases, scope, qs)
    decreases qs, 0
  {
    if qs != [] {
      QueryKept(b, visible, scope, qs[0]);
      AllKept(b, visible, scope, qs[1..]);
      assert ScopeAll(b.bind, visible, qs)[1..] == ScopeAll(b.bind, visible, qs[1..]);
    }
  }

  // ---------- the compiler ----------

  /** A source becomes a derived table over its storage, under the name it was visible by. */
  function StorageItem<C, S>(bindings: map<string, S>, name: string, alias: Option<string>): FromItem<C, S> {
    if Fold(name) in bindings then
      Derived(Storage(bindings[Fold(name)]), Some(if alias.Some? then alias.value else name))
    else Table(name, alias)
  }

  function StorageBinder<C, S>(bindings: map<string, S>): (string, Option<string>) -> FromItem<C, S> {
    (name, alias) => StorageItem(bindings, name, alias)
  }

  function Compile<C, S>(bindings: map<string, S>, q: Query<C, S>): Query<C, S> {
    BindByScope(StorageBinder(bindings), {}, q)
  }

  ghost function Relations<C, S, D>(w: World<C, S, D>, bindings: map<string, S>): map<string, D> {
    map a | a in bindings :: w.storage(bindings[a])
  }

  /**
   The compiled query, evaluated with no alias bound, means what the accepted query means with every
   alias bound to its source, even by an engine whose own relations are different.
   */
  lemma {:induction false} CompilePreservesMeaning<C, S, D(!new)>(w: World<C, S, D>, engine: World<C, S, D>,
      bindings: map<string, S>, q: Query<C, S>)
    requires SameOperations(engine, w) && Validate(q, bindings.Keys) == None
    ensures Eval(engine, map[], map[], Compile(bindings, q)) == Eval(w, Relations(w, bindings), map[], q)
  {
    var b := Binding(w, Relations(w, bindings), engine, map[], StorageBinder(bindings), DeclaredNames(q));
    AcceptsExactlyTheDisciplined(q, bindings.Keys);
    assert Relations(w, bindings).Keys == bindings.Keys;
    forall n, a | Source(n, a) in Nodes({}, q) ensures Faithful(b, n, a) {
      StorageIsFaithful(b, bindings, n, a);
    }
    QueryKept(b, {}, map[], q);
  }

  lemma {:induction false} StorageIsFaithful<C, S, D(!new)>(b: Binding<C, S, D>, bindings: map<string, S>,
      name: string, alias: Option<string>)
    requires b.bind == StorageBinder(bindings) && b.aliases == Relations(b.world, bindings)
    requires b.engine.storage == b.world.storage && Fold(name) in bindings
    ensures Faithful(b, name, alias)
  {
    var source: Query<C, S> := Storage(bindings[Fold(name)]);
    assert b.bind(name, alias) == StorageItem(bindings, name, alias) && b.bind(name, alias).body == source;
    forall n ensures !OpenInItem(b.world.refers, b.bind(name, alias), n) {
      assert !Open(b.world.refers, source, n);
    }
    forall scope: map<string, D>
      ensures EvalItem(b.engine, b.names, scope, b.bind(name, alias)) == b.aliases[Fold(name)]
    {
      assert Eval(b.engine, b.names, scope, source) == b.engine.storage(bindings[Fold(name)]);
    }
  }

  /** An accepted query reads no relation of the engine's own: changing them all changes nothing. */
  lemma {:induction false} AcceptedReadsOnlyAliases<C, S, D(!new)>(w: World<C, S, D>, other: World<C, S, D>,
      bindings: map<string, S>, q: Query<C, S>)
    requires SameOperations(other, w) && Validate(q, bindings.Keys) == None
    ensures Eval(other, Relations(other, bindings), map[], q) == Eval(w, Relations(w, bindings), map[], q)
  {
    CompilePreservesMeaning(w, w, bindings, q);
    CompilePreservesMeaning(other, w, bindings, q);
  }
}
