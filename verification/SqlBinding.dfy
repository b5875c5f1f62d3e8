/**
 The query policy and the two source binders. The compiler resolves every table node through the
 lexical scopes and substitutes its storage relation; the worker rewrites table nodes by name alone,
 skipping every name that any common table expression of the statement declares.
 */
module SqlBinding {
  import opened Wrappers
  import opened Sql

  // ---------- what lexical resolution finds ----------

  /** A table node resolved to a source or to a CTE, a foreign relation, or a CTE declaration. */
  datatype Node =
    | Source(name: string, alias: Option<string>)
    | CteReference(name: string)
    | External
    | Declares(name: string)

  function CteNames<C, S>(ctes: seq<Cte<C, S>>): set<string> {
    if ctes == [] then {} else {ctes[0].name} + CteNames(ctes[1..])
  }

  /** All nodes of a query, its tables resolved against the CTE names visible by exact spelling. */
  ghost function Nodes<C, S>(visible: set<string>, q: Query<C, S>): set<Node>
    decreases q, 1
  {
    match q
    case Storage(_) => {}
    case Select(withs, from, subqueries, _) =>
      var inner := visible + CteNames(withs.ctes);
      NodesOfWith(visible, withs.recursive, withs.ctes) + NodesOfFrom(inner, from) + NodesOfAll(inner, subqueries)
    case SetOperation(withs, left, right, _) =>
      var inner := visible + CteNames(withs.ctes);
      NodesOfWith(visible, withs.recursive, withs.ctes) + Nodes(inner, left) + Nodes(inner, right)
  }

  function BodyScope<C, S>(visible: set<string>, recursive: bool, cte: Cte<C, S>): set<string> {
    if SeesItself(recursive, cte) then visible + {cte.name} else visible
  }

  ghost function NodesOfWith<C, S>(visible: set<string>, recursive: bool, ctes: seq<Cte<C, S>>): set<Node>
    decreases ctes, 0
  {
    if ctes == [] then {}
    else
      {Declares(ctes[0].name)} + Nodes(BodyScope(visible, recursive, ctes[0]), ctes[0].body)
      + NodesOfWith(visible + {ctes[0].name}, recursive, ctes[1..])
  }

  ghost function NodesOfFrom<C, S>(visible: set<string>, items: seq<FromItem<C, S>>): set<Node>
    decreases items, 0
  {
    if items == [] then {} else NodesOfItem(visible, items[0]) + NodesOfFrom(visible, items[1..])
  }

  ghost function NodesOfItem<C, S>(visible: set<string>, item: FromItem<C, S>): set<Node>
    decreases item, 2
  {
    match item
    case Table(name, alias) => {if name in visible then CteReference(name) else Source(name, alias)}
    case Derived(body, _) => Nodes(visible, body)
    case Foreign(_, _) => {External}
  }

  ghost function NodesOfAll<C, S>(visible: set<string>, qs: seq<Query<C, S>>): set<Node>
    decreases qs, 0
  {
    if qs == [] then {} else Nodes(visible, qs[0]) + NodesOfAll(visible, qs[1..])
  }

  // ---------- the policy ----------

  datatype PolicyError = AliasCollision | ForeignRelation | UnknownAlias

  /** The table checks of the policy, in their order; the aliases are given folded. */
  ghost function Validate<C, S>(q: Query<C, S>, aliases: set<string>): Option<PolicyError> {
    var nodes := Nodes({}, q);
    if exists n :: Declares(n) in nodes && Fold(n) in aliases then Some(AliasCollision)
    else if External in nodes then Some(ForeignRelation)
    else if exists n, a :: Source(n, a) in nodes && Fold(n) !in aliases then Some(UnknownAlias)
    else None
  }

  // ---------- the two binders ----------

  /** Replaces the table nodes that lexical resolution takes for sources. */
  function BindByScope<C, S>(bind: (string, Option<string>) -> FromItem<C, S>, visible: set<string>,
      q: Query<C, S>): Query<C, S>
    decreases q, 1
  {
    match q
    case Storage(_) => q
    case Select(withs, from, subqueries, clauses) =>
      var inner := visible + CteNames(withs.ctes);
      Select(With(withs.recursive, ScopeWith(bind, visible, withs.recursive, withs.ctes)),
             ScopeFrom(bind, inner, from), ScopeAll(bind, inner, subqueries), clauses)
    case SetOperation(withs, left, right, clauses) =>
      var inner := visible + CteNames(withs.ctes);
      SetOperation(With(withs.recursive, ScopeWith(bind, visible, withs.recursive, withs.ctes)),
                   BindByScope(bind, inner, left), BindByScope(bind, inner, right), clauses)
  }

  function ScopeWith<C, S>(bind: (string, Option<string>) -> FromItem<C, S>, visible: set<string>, recursive: bool,
      ctes: seq<Cte<C, S>>): seq<Cte<C, S>>
    decreases ctes, 0
  {
    if ctes == [] then []
    else
      [Cte(ctes[0].name, BindByScope(bind, BodyScope(visible, recursive, ctes[0]), ctes[0].body))]
      + ScopeWith(bind, visible + {ctes[0].name}, recursive, ctes[1..])
  }

  function ScopeFrom<C, S>(bind: (string, Option<string>) -> FromItem<C, S>, visible: set<string>,
      items: seq<FromItem<C, S>>): seq<FromItem<C, S>>
    decreases items, 0
  {
    if items == [] then [] else [ScopeItem(bind, visible, items[0])] + ScopeFrom(bind, visible, items[1..])
  }

  function ScopeItem<C, S>(bind: (string, Option<string>) -> FromItem<C, S>, visible: set<string>,
      item: FromItem<C, S>): FromItem<C, S>
    decreases item, 2
  {
    match item
    case Table(name, alias) => if name in visible then item else bind(name, alias)
    case Derived(body, alias) => Derived(BindByScope(bind, visible, body), alias)
    case Foreign(_, _) => item
  }

  function ScopeAll<C, S>(bind: (string, Option<string>) -> FromItem<C, S>, visible: set<string>,
      qs: seq<Query<C, S>>): seq<Query<C, S>>
    decreases qs, 0
  {
    if qs == [] then [] else [BindByScope(bind, visible, qs[0])] + ScopeAll(bind, visible, qs[1..])
  }

  /** Replaces every table node whose folded name is a source alias and no CTE name of the statement. */
  function BindByName<C, S>(bind: (string, Option<string>) -> FromItem<C, S>, skipped: set<string>,
      aliases: set<string>, q: Query<C, S>): Query<C, S>
    decreases q, 1
  {
    match q
    case Storage(_) => q
    case Select(withs, from, subqueries, clauses) =>
      Select(With(withs.recursive, NameWith(bind, skipped, aliases, withs.ctes)),
             NameFrom(bind, skipped, aliases, from), NameAll(bind, skipped, aliases, subqueries), clauses)
    case SetOperation(withs, left, right, clauses) =>
      SetOperation(With(withs.recursive, NameWith(bind, skipped, aliases, withs.ctes)),
                   BindByName(bind, skipped, aliases, left), BindByName(bind, skipped, aliases, right), clauses)
  }

  function NameWith<C, S>(bind: (string, Option<string>) -> FromItem<C, S>, skipped: set<string>, aliases: set<string>,
      ctes: seq<Cte<C, S>>): seq<Cte<C, S>>
    decreases ctes, 0
  {
    if ctes == [] then []
    else
      [Cte(ctes[0].name, BindByName(bind, skipped, aliases, ctes[0].body))]
      + NameWith(bind, skipped, aliases, ctes[1..])
  }

  function NameFrom<C, S>(bind: (string, Option<string>) -> FromItem<C, S>, skipped: set<string>, aliases: set<string>,
      items: seq<FromItem<C, S>>): seq<FromItem<C, S>>
    decreases items, 0
  {
    if items == [] then []
    else [NameItem(bind, skipped, aliases, items[0])] + NameFrom(bind, skipped, aliases, items[1..])
  }

  function NameItem<C, S>(bind: (string, Option<string>) -> FromItem<C, S>, skipped: set<string>, aliases: set<string>,
      item: FromItem<C, S>): FromItem<C, S>
    decreases item, 2
  {
    match item
    case Table(name, alias) => if Fold(name) in skipped || Fold(name) !in aliases then item else bind(name, alias)
    case Derived(body, alias) => Derived(BindByName(bind, skipped, aliases, body), alias)
    case Foreign(_, _) => item
  }

  function NameAll<C, S>(bind: (string, Option<string>) -> FromItem<C, S>, skipped: set<string>, aliases: set<string>,
      qs: seq<Query<C, S>>): seq<Query<C, S>>
    decreases qs, 0
  {
    if qs == [] then [] else [BindByName(bind, skipped, aliases, qs[0])] + NameAll(bind, skipped, aliases, qs[1..])
  }

  // ---------- the binders agree ----------

  /** What an accepted query's nodes satisfy: names taken by CTEs, and sources among the aliases. */
  ghost predicate Disciplined(nodes: set<Node>, taken: set<string>, aliases: set<string>) {
    && taken !! aliases
    && External !in nodes
    && (forall n :: Declares(n) in nodes ==> Fold(n) in taken)
    && (forall n, a :: Source(n, a) in nodes ==> Fold(n) in aliases)
  }

  ghost predicate TakenCovers(visible: set<string>, taken: set<string>) {
    forall v :: v in visible ==> Fold(v) in taken
  }

  lemma {:induction false} WithCovers<C, S>(visible: set<string>, recursive: bool, ctes: seq<Cte<C, S>>,
      taken: set<string>, aliases: set<string>)
    requires TakenCovers(visible, taken) && Disciplined(NodesOfWith(visible, recursive, ctes), taken, aliases)
    ensures TakenCovers(visible + CteNames(ctes), taken)
    decreases |ctes|
  {
    if ctes != [] {
      assert Declares(ctes[0].name) in NodesOfWith(visible, recursive, ctes);
      WithCovers(visible + {ctes[0].name}, recursive, ctes[1..], taken, aliases);
      assert visible + CteNames(ctes) == visible + {ctes[0].name} + CteNames(ctes[1..]);
    } else {
      assert visible + CteNames(ctes) == visible;
    }
  }

  lemma {:induction false} QueriesAgree<C, S>(bind: (string, Option<string>) -> FromItem<C, S>, visible: set<string>,
      taken: set<string>, aliases: set<string>, q: Query<C, S>)
    requires TakenCovers(visible, taken) && Disciplined(Nodes(visible, q), taken, aliases)
    ensures BindByName(bind, taken, aliases, q) == BindByScope(bind, visible, q)
    decreases q, 1
  {
    match q
    case Storage(_) =>
    case Select(withs, from, subqueries, _) =>
      WithsAgree(bind, visible, withs.recursive, taken, aliases, withs.ctes);
      WithCovers(visible, withs.recursive, withs.ctes, taken, aliases);
      ItemsAgree(bind, visible + CteNames(withs.ctes), taken, aliases, from);
      AllAgree(bind, visible + CteNames(withs.ctes), taken, aliases, subqueries);
    case SetOperation(withs, left, right, _) =>
      WithsAgree(bind, visible, withs.recursive, taken, aliases, withs.ctes);
      WithCovers(visible, withs.recursive, withs.ctes, taken, aliases);
      QueriesAgree(bind, visible + CteNames(withs.ctes), taken, aliases, left);
      QueriesAgree(bind, visible + CteNames(withs.ctes), taken, aliases, right);
  }

  lemma {:induction false} WithsAgree<C, S>(bind: (string, Option<string>) -> FromItem<C, S>, visible: set<string>,
      recursive: bool, taken: set<string>, aliases: set<string>, ctes: seq<Cte<C, S>>)
    requires TakenCovers(visible, taken) && Disciplined(NodesOfWith(visible, recursive, ctes), taken, aliases)
    ensures NameWith(bind, taken, aliases, ctes) == ScopeWith(bind, visible, recursive, ctes)
    decreases ctes, 0
  {
    if ctes != [] {
      assert Declares(ctes[0].name) in NodesOfWith(visible, recursive, ctes);
      QueriesAgree(bind, BodyScope(visible, recursive, ctes[0]), taken, aliases, ctes[0].body);
      WithsAgree(bind, visible + {ctes[0].name}, recursive, taken, aliases, ctes[1..]);
    }
  }

  lemma {:induction false} ItemsAgree<C, S>(bind: (string, Option<string>) -> FromItem<C, S>, visible: set<string>,
      taken: set<string>, aliases: set<string>, items: seq<FromItem<C, S>>)
    requires TakenCovers(visible, taken) && Disciplined(NodesOfFrom(visible, items), taken, aliases)
    ensures NameFrom(bind, taken, aliases, items) == ScopeFrom(bind, visible, items)
    decreases items, 0
  {
    if items != [] {
      ItemAgrees(bind, visible, taken, aliases, items[0]);
      ItemsAgree(bind, visible, taken, aliases, items[1..]);
    }
  }

  lemma {:induction false} ItemAgrees<C, S>(bind: (string, Option<string>) -> FromItem<C, S>, visible: set<string>,
      taken: set<string>, aliases: set<string>, item: FromItem<C, S>)
    requires TakenCovers(visible, taken) && Disciplined(NodesOfItem(visible, item), taken, aliases)
    ensures NameItem(bind, taken, aliases, item) == ScopeItem(bind, visible, item)
    decreases item, 2
  {
    match item
    case Table(name, alias) =>
      if name !in visible {
        assert Source(name, alias) in NodesOfItem(visible, item);
      }
    case Derived(body, _) => QueriesAgree(bind, visible, taken, aliases, body);
    case Foreign(_, _) =>
  }

  lemma {:induction false} AllAgree<C, S>(bind: (string, Option<string>) -> FromItem<C, S>, visible: set<string>,
      taken: set<string>, aliases: set<string>, qs: seq<Query<C, S>>)
    requires TakenCovers(visible, taken) && Disciplined(NodesOfAll(visible, qs), taken, aliases)
    ensures NameAll(bind, taken, aliases, qs) == ScopeAll(bind, visible, qs)
    decreases qs, 0
  {
    if qs != [] {
      QueriesAgree(bind, visible, taken, aliases, qs[0]);
      AllAgree(bind, visible, taken, aliases, qs[1..]);
    }
  }

  /** The folded names of all CTEs of a statement. */
  ghost function DeclaredNames<C, S>(q: Query<C, S>): set<string> {
    set node | node in Nodes({}, q) && node.Declares? :: Fold(node.name)
  }

  /** The policy accepts a query if and only if its nodes are disciplined: both directions of its intent. */
  lemma {:induction false} AcceptsExactlyTheDisciplined<C, S>(q: Query<C, S>, aliases: set<string>)
    ensures Validate(q, aliases) == None <==> Disciplined(Nodes({}, q), DeclaredNames(q), aliases)
  {
    forall n | Declares(n) in Nodes({}, q) ensures Fold(n) in DeclaredNames(q) {
      assert Declares(n).Declares?;
    }
    forall name | name in DeclaredNames(q) ensures exists n :: Declares(n) in Nodes({}, q) && Fold(n) == name {
      var node :| node in Nodes({}, q) && node.Declares? && Fold(node.name) == name;
      assert Declares(node.name) in Nodes({}, q);
    }
  }

  /**
   On every accepted query the name-based binder replaces exactly the table nodes that lexical scope
   resolution takes for sources, whatever it replaces them by.
   */
  lemma {:induction false} BindersAgree<C, S>(bind: (string, Option<string>) -> FromItem<C, S>, q: Query<C, S>,
      aliases: set<string>)
    requires Validate(q, aliases) == None
    ensures BindByName(bind, DeclaredNames(q), aliases, q) == BindByScope(bind, {}, q)
  {
    AcceptsExactlyTheDisciplined(q, aliases);
    QueriesAgree(bind, {}, DeclaredNames(q), aliases, q);
  }
}
