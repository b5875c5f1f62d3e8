/**
 Names of sources and of common table expressions: case does not matter for sources, and a common table
 expression is visible where SQL says and nowhere else.
 */
module SqlNames {
  import opened Wrappers
  import opened Sql
  import opened SqlBinding
  import opened SqlMeaning
  import opened SqlRewriting

  // ---------- case folding, by characters ----------

  /** The same character, or the two cases of a letter. */
  predicate SameLetter(c: char, d: char) {
    || c == d
    || ('A' <= c <= 'Z' && d as int == c as int + 32)
    || ('A' <= d <= 'Z' && c as int == d as int + 32)
  }

  predicate SameUpToCase(a: string, b: string) {
    |a| == |b| && forall i :: 0 <= i < |a| ==> SameLetter(a[i], b[i])
  }

  lemma {:induction false} SameUpToCaseFirst(a: string, b: string)
    requires a != "" && b != ""
    ensures SameUpToCase(a, b) <==> SameLetter(a[0], b[0]) && SameUpToCase(a[1..], b[1..])
  {
    if SameLetter(a[0], b[0]) && SameUpToCase(a[1..], b[1..]) {
      forall i | 0 <= i < |a| ensures SameLetter(a[i], b[i]) {
        assert i > 0 ==> a[i] == a[1..][i - 1] && b[i] == b[1..][i - 1];
      }
    }
  }

  /** Two names fold alike if and only if they differ at most in the case of letters. */
  lemma {:induction false} FoldAgreesExactlyWhen(a: string, b: string)
    ensures Fold(a) == Fold(b) <==> SameUpToCase(a, b)
  {
    if a != "" && b != "" {
      FoldAgreesExactlyWhen(a[1..], b[1..]);
      SameUpToCaseFirst(a, b);
      assert Fold(a)[1..] == Fold(a[1..]) && Fold(b)[1..] == Fold(b[1..]);
      assert Fold(a)[0] == Fold(b)[0] <==> SameLetter(a[0], b[0]);
      assert Fold(a) == [Fold(a)[0]] + Fold(a)[1..] && Fold(b) == [Fold(b)[0]] + Fold(b)[1..];
    }
  }

  // ---------- respelled queries ----------

  // Queries that differ at most in the case of source names, whose visible names are given by alias.

  ghost predicate Respells<C, S>(aliases: set<string>, p: Query<C, S>, q: Query<C, S>)
    decreases p, 1
  {
    match p
    case Storage(_) => p == q
    case Select(withs, from, subqueries, clauses) =>
      && q.Select? && q.withs.recursive == withs.recursive && q.clauses == clauses
      && RespellsWith(aliases, withs.ctes, q.withs.ctes) && RespellsFrom(aliases, from, q.from)
      && RespellsAll(aliases, subqueries, q.subqueries)
    case SetOperation(withs, left, right, clauses) =>
      && q.SetOperation? && q.withs.recursive == withs.recursive && q.clauses == clauses
      && RespellsWith(aliases, withs.ctes, q.withs.ctes)
      && Respells(aliases, left, q.left) && Respells(aliases, right, q.right)
  }

  ghost predicate RespellsWith<C, S>(aliases: set<string>, p: seq<Cte<C, S>>, q: seq<Cte<C, S>>)
    decreases p, 0
  {
    && |p| == |q|
    && (p != [] ==>
          && p[0].name == q[0].name && Respells(aliases, p[0].body, q[0].body)
          && RespellsWith(aliases, p[1..], q[1..]))
  }

  ghost predicate RespellsItem<C, S>(aliases: set<string>, x: FromItem<C, S>, y: FromItem<C, S>)
    decreases x, 2
  {
    match x
    case Table(name, alias) =>
      || x == y
      || (y.Table? && SameUpToCase(name, y.name) && Fold(name) in aliases && alias.Some? && y.alias == alias)
    case Derived(body, alias) => y.Derived? && y.alias == alias && Respells(aliases, body, y.body)
    case Foreign(_, _) => x == y
  }

  ghost predicate RespellsFrom<C, S>(aliases: set<string>, p: seq<FromItem<C, S>>, q: seq<FromItem<C, S>>)
    decreases p, 0
  {
    |p| == |q| && (p != [] ==> RespellsItem(aliases, p[0], q[0]) && RespellsFrom(aliases, p[1..], q[1..]))
  }

  ghost predicate RespellsAll<C, S>(aliases: set<string>, p: seq<Query<C, S>>, q: seq<Query<C, S>>)
    decreases p, 0
  {
    |p| == |q| && (p != [] ==> Respells(aliases, p[0], q[0]) && RespellsAll(aliases, p[1..], q[1..]))
  }

  // ---------- they are accepted alike and bound alike ----------

  /** A binder that respects case gives a source in either spelling the same. */
  ghost predicate IgnoresCase<C, S>(bind: (string, Option<string>) -> FromItem<C, S>, aliases: set<string>) {
    forall m: string, n: string, a: Option<string> {:trigger bind(m, a), bind(n, a)} ::
      Fold(m) == Fold(n) && Fold(m) in aliases && a.Some? ==> bind(m, a) == bind(n, a)
  }

  /** The nodes of the respelled query are disciplined too, and declare the same names. */
  ghost predicate Alike(taken: set<string>, aliases: set<string>, m: set<Node>, n: set<Node>) {
    Disciplined(n, taken, aliases) && forall d :: Declares(d) in m <==> Declares(d) in n
  }

  lemma {:induction false} AlikeUnion(taken: set<string>, aliases: set<string>, m: set<Node>, n: set<Node>,
      k: set<Node>, l: set<Node>)
    requires Alike(taken, aliases, m, n) && Alike(taken, aliases, k, l)
    ensures Alike(taken, aliases, m + k, n + l)
  {
  }

  lemma {:induction false} SelectAlike<C, S>(bind: (string, Option<string>) -> FromItem<C, S>, visible: set<string>,
      taken: set<string>, aliases: set<string>, p: Query<C, S>, q: Query<C, S>)
    requires IgnoresCase(bind, aliases) && TakenCovers(visible, taken) && Respells(aliases, p, q) && p.Select?
    requires Disciplined(Nodes(visible, p), taken, aliases)
    ensures Alike(taken, aliases, Nodes(visible, p), Nodes(visible, q))
    ensures BindByScope(bind, visible, p) == BindByScope(bind, visible, q)
    decreases p, 0
  {
    var recursive, ctes, seen := p.withs.recursive, p.withs.ctes, visible + CteNames(p.withs.ctes);
    WithsAlike(bind, visible, recursive, taken, aliases, ctes, q.withs.ctes);
    WithCovers(visible, recursive, ctes, taken, aliases);
    ItemsAlike(bind, seen, taken, aliases, p.from, q.from);
    AllAlike(bind, seen, taken, aliases, p.subqueries, q.subqueries);
    var m, n := NodesOfWith(visible, recursive, ctes), NodesOfWith(visible, recursive, q.withs.ctes);
    AlikeUnion(taken, aliases, m, n, NodesOfFrom(seen, p.from), NodesOfFrom(seen, q.from));
    AlikeUnion(taken, aliases, m + NodesOfFrom(seen, p.from), n + NodesOfFrom(seen, q.from),
               NodesOfAll(seen, p.subqueries), NodesOfAll(seen, q.subqueries));
  }

  lemma {:induction false} SetOperationAlike<C, S>(bind: (string, Option<string>) -> FromItem<C, S>,
      visible: set<string>, taken: set<string>, aliases: set<string>, p: Query<C, S>, q: Query<C, S>)
    requires IgnoresCase(bind, aliases) && TakenCovers(visible, taken) && Respells(aliases, p, q) && p.SetOperation?
    requires Disciplined(Nodes(visible, p), taken, aliases)
    ensures Alike(taken, aliases, Nodes(visible, p), Nodes(visible, q))
    ensures BindByScope(bind, visible, p) == BindByScope(bind, visible, q)
    decreases p, 0
  {
    var recursive, ctes, seen := p.withs.recursive, p.withs.ctes, visible + CteNames(p.withs.ctes);
    WithsAlike(bind, visible, recursive, taken, aliases, ctes, q.withs.ctes);
    WithCovers(visible, recursive, ctes, taken, aliases);
    QueriesAlike(bind, seen, taken, aliases, p.left, q.left);
    QueriesAlike(bind, seen, taken, aliases, p.right, q.right);
    var m, n := NodesOfWith(visible, recursive, ctes), NodesOfWith(visible, recursive, q.withs.ctes);
    AlikeUnion(taken, aliases, m, n, Nodes(seen, p.left), Nodes(seen, q.left));
    AlikeUnion(taken, aliases, m + Nodes(seen, p.left), n + Nodes(seen, q.left),
               Nodes(seen, p.right), Nodes(seen, q.right));
  }

  lemma {:induction false} QueriesAlike<C, S>(bind: (string, Option<string>) -> FromItem<C, S>, visible: set<string>,
      taken: set<string>, aliases: set<string>, p: Query<C, S>, q: Query<C, S>)
    requires IgnoresCase(bind, aliases) && TakenCovers(visible, taken) && Respells(aliases, p, q)
    requires Disciplined(Nodes(visible, p), taken, aliases)
    ensures Alike(taken, aliases, Nodes(visible, p), Nodes(visible, q))
    ensures BindByScope(bind, visible, p) == BindByScope(bind, visible, q)
    decreases p, 1
  {
    match p
    case Storage(_) =>
    case Select(_, _, _, _) => SelectAlike(bind, visible, taken, aliases, p, q);
    case SetOperation(_, _, _, _) => SetOperationAlike(bind, visible, taken, aliases, p, q);
  }

  lemma {:induction false} BodyIsAlike<C, S>(aliases: set<string>, p: Query<C, S>, q: Query<C, S>)
    requires Respells(aliases, p, q)
    ensures p.SetOperation? <==> q.SetOperation?
  {
  }

  lemma {:induction false} CteAlike<C, S>(bind: (string, Option<string>) -> FromItem<C, S>, visible: set<string>,
      recursive: bool, taken: set<string>, aliases: set<string>, p: Cte<C, S>, q: Cte<C, S>)
    requires IgnoresCase(bind, aliases) && TakenCovers(visible, taken) && Fold(p.name) in taken
    requires p.name == q.name && Respells(aliases, p.body, q.body)
    requires Disciplined(Nodes(BodyScope(visible, recursive, p), p.body), taken, aliases)
    ensures BodyScope(visible, recursive, p) == BodyScope(visible, recursive, q)
    ensures var seen := BodyScope(visible, recursive, p);
            && Alike(taken, aliases, Nodes(seen, p.body), Nodes(seen, q.body))
            && BindByScope(bind, seen, p.body) == BindByScope(bind, seen, q.body)
    decreases p, 2
  {
    BodyIsAlike(aliases, p.body, q.body);
    QueriesAlike(bind, BodyScope(visible, recursive, p), taken, aliases, p.body, q.body);
  }

  lemma {:induction false} WithsAlike<C, S>(bind: (string, Option<string>) -> FromItem<C, S>, visible: set<string>,
      recursive: bool, taken: set<string>, aliases: set<string>, p: seq<Cte<C, S>>, q: seq<Cte<C, S>>)
    requires IgnoresCase(bind, aliases) && TakenCovers(visible, taken) && RespellsWith(aliases, p, q)
    requires Disciplined(NodesOfWith(visible, recursive, p), taken, aliases)
    ensures Alike(taken, aliases, NodesOfWith(visible, recursive, p), NodesOfWith(visible, recursive, q))
    ensures ScopeWith(bind, visible, recursive, p) == ScopeWith(bind, visible, recursive, q)
    ensures CteNames(p) == CteNames(q)
    decreases p, 0
  {
    if p != [] {
      assert Declares(p[0].name) in NodesOfWith(visible, recursive, p);
      CteAlike(bind, visible, recursive, taken, aliases, p[0], q[0]);
      var next, seen := visible + {p[0].name}, BodyScope(visible, recursive, p[0]);
      WithsAlike(bind, next, recursive, taken, aliases, p[1..], q[1..]);
      var first := {Declares(p[0].name)};
      AlikeUnion(taken, aliases, first, first, Nodes(seen, p[0].body), Nodes(seen, q[0].body));
      AlikeUnion(taken, aliases, first + Nodes(seen, p[0].body), first + Nodes(seen, q[0].body),
                 NodesOfWith(next, recursive, p[1..]), NodesOfWith(next, recursive, q[1..]));
    }
  }

  lemma {:induction false} ItemAlike<C, S>(bind: (string, Option<string>) -> FromItem<C, S>,
      visible: set<string>, taken: set<string>, aliases: set<string>, x: FromItem<C, S>, y: FromItem<C, S>)
    requires IgnoresCase(bind, aliases) && TakenCovers(visible, taken) && RespellsItem(aliases, x, y)
    requires Disciplined(NodesOfItem(visible, x), taken, aliases)
    ensures Alike(taken, aliases, NodesOfItem(visible, x), NodesOfItem(visible, y))
    ensures ScopeItem(bind, visible, x) == ScopeItem(bind, visible, y)
    decreases x, 2
  {
    match x
    case Table(name, alias) =>
      if x != y {
        FoldAgreesExactlyWhen(name, y.name);
        assert name !in visible && y.name !in visible;
        assert bind(name, alias) == bind(y.name, alias);
      }
    case Derived(body, _) => QueriesAlike(bind, visible, taken, aliases, body, y.body);
    case Foreign(_, _) =>
  }

  lemma {:induction false} ItemsAlike<C, S>(bind: (string, Option<string>) -> FromItem<C, S>,
      visible: set<string>, taken: set<string>, aliases: set<string>, p: seq<FromItem<C, S>>, q: seq<FromItem<C, S>>)
    requires IgnoresCase(bind, aliases) && TakenCovers(visible, taken) && RespellsFrom(aliases, p, q)
    requires Disciplined(NodesOfFrom(visible, p), taken, aliases)
    ensures Alike(taken, aliases, NodesOfFrom(visible, p), NodesOfFrom(visible, q))
    ensures ScopeFrom(bind, visible, p) == ScopeFrom(bind, visible, q)
    decreases p, 0
  {
    if p != [] {
      ItemAlike(bind, visible, taken, aliases, p[0], q[0]);
      ItemsAlike(bind, visible, taken, aliases, p[1..], q[1..]);
    }
  }

  lemma {:induction false} AllAlike<C, S>(bind: (string, Option<string>) -> FromItem<C, S>,
      visible: set<string>, taken: set<string>, aliases: set<string>, p: seq<Query<C, S>>, q: seq<Query<C, S>>)
    requires IgnoresCase(bind, aliases) && TakenCovers(visible, taken) && RespellsAll(aliases, p, q)
    requires Disciplined(NodesOfAll(visible, p), taken, aliases)
    ensures Alike(taken, aliases, NodesOfAll(visible, p), NodesOfAll(visible, q))
    ensures ScopeAll(bind, visible, p) == ScopeAll(bind, visible, q)
    decreases p, 0
  {
    if p != [] {
      QueriesAlike(bind, visible, taken, aliases, p[0], q[0]);
      AllAlike(bind, visible, taken, aliases, p[1..], q[1..]);
    }
  }

  // ---------- the relation is symmetric ----------

  lemma {:induction false} RespellsBack<C, S>(aliases: set<string>, p: Query<C, S>, q: Query<C, S>)
    requires Respells(aliases, p, q)
    ensures Respells(aliases, q, p)
    decreases p, 1
  {
    match p
    case Storage(_) =>
    case Select(withs, from, subqueries, _) =>
      RespellsWithBack(aliases, withs.ctes, q.withs.ctes);
      RespellsFromBack(aliases, from, q.from);
      RespellsAllBack(aliases, subqueries, q.subqueries);
    case SetOperation(withs, left, right, _) =>
      RespellsWithBack(aliases, withs.ctes, q.withs.ctes);
      RespellsBack(aliases, left, q.left);
      RespellsBack(aliases, right, q.right);
  }

  lemma {:induction false} RespellsWithBack<C, S>(aliases: set<string>, p: seq<Cte<C, S>>, q: seq<Cte<C, S>>)
    requires RespellsWith(aliases, p, q)
    ensures RespellsWith(aliases, q, p)
    decreases p, 0
  {
    if p != [] {
      RespellsBack(aliases, p[0].body, q[0].body);
      RespellsWithBack(aliases, p[1..], q[1..]);
    }
  }

  lemma {:induction false} RespellsItemBack<C, S>(aliases: set<string>, x: FromItem<C, S>, y: FromItem<C, S>)
    requires RespellsItem(aliases, x, y)
    ensures RespellsItem(aliases, y, x)
    decreases x, 2
  {
    if x.Derived? {
      RespellsBack(aliases, x.body, y.body);
    } else if x.Table? && x != y {
      FoldAgreesExactlyWhen(x.name, y.name);
    }
  }

  lemma {:induction false} RespellsFromBack<C, S>(aliases: set<string>, p: seq<FromItem<C, S>>,
      q: seq<FromItem<C, S>>)
    requires RespellsFrom(aliases, p, q)
    ensures RespellsFrom(aliases, q, p)
    decreases p, 0
  {
    if p != [] {
      RespellsItemBack(aliases, p[0], q[0]);
      RespellsFromBack(aliases, p[1..], q[1..]);
    }
  }

  lemma {:induction false} RespellsAllBack<C, S>(aliases: set<string>, p: seq<Query<C, S>>,
      q: seq<Query<C, S>>)
    requires RespellsAll(aliases, p, q)
    ensures RespellsAll(aliases, q, p)
    decreases p, 0
  {
    if p != [] {
      RespellsBack(aliases, p[0], q[0]);
      RespellsAllBack(aliases, p[1..], q[1..]);
    }
  }

  // ---------- the promises ----------

  lemma {:induction false} AcceptedAlike<C, S>(bind: (string, Option<string>) -> FromItem<C, S>,
      aliases: set<string>, p: Query<C, S>, q: Query<C, S>)
    requires IgnoresCase(bind, aliases) && Respells(aliases, p, q) && Validate(p, aliases) == None
    ensures Validate(q, aliases) == None && BindByScope(bind, {}, p) == BindByScope(bind, {}, q)
  {
    AcceptsExactlyTheDisciplined(p, aliases);
    AcceptsExactlyTheDisciplined(q, aliases);
    QueriesAlike(bind, {}, DeclaredNames(p), aliases, p, q);
    forall n | n in DeclaredNames(q) ensures n in DeclaredNames(p) {
      var node :| node in Nodes({}, q) && node.Declares? && Fold(node.name) == n;
      assert Declares(node.name) in Nodes({}, p);
    }
    forall n | Declares(n) in Nodes({}, q) ensures Fold(n) in DeclaredNames(q) {
      assert Declares(n).Declares?;
    }
  }

  /**
   The case of source names does not matter: queries that differ only in it are both accepted or both
   refused, and accepted ones compile to the same query and are rewritten to the same query.
   */
  lemma {:induction false} CaseOfSourcesIsIgnored<C, S>(bindings: map<string, S>, views: map<string, string>,
      p: Query<C, S>, q: Query<C, S>)
    requires Respells(bindings.Keys, p, q) && views.Keys == bindings.Keys
    ensures Validate(p, bindings.Keys) == None <==> Validate(q, bindings.Keys) == None
    ensures Validate(p, bindings.Keys) == None ==>
              Compile(bindings, p) == Compile(bindings, q) && Rewrite(views, p) == Rewrite(views, q)
  {
    var aliases := bindings.Keys;
    var storage := StorageBinder<C, S>(bindings);
    var view := ViewBinder<C, S>(views);
    RespellsBack(aliases, p, q);
    if Validate(q, aliases) == None {
      AcceptedAlike(storage, aliases, q, p);
    }
    if Validate(p, aliases) == None {
      AcceptedAlike(storage, aliases, p, q);
      AcceptedAlike(view, aliases, p, q);
      BindersAgree(view, p, aliases);
      BindersAgree(view, q, aliases);
    }
  }

  /** So it does not matter to the meaning either, in any world. */
  lemma {:induction false} CaseKeepsMeaning<C, S, D(!new)>(w: World<C, S, D>, bindings: map<string, S>,
      p: Query<C, S>, q: Query<C, S>)
    requires Extensional(w) && Respells(bindings.Keys, p, q) && Validate(p, bindings.Keys) == None
    ensures Eval(w, Relations(w, bindings), map[], p) == Eval(w, Relations(w, bindings), map[], q)
  {
    CaseOfSourcesIsIgnored(bindings, map a | a in bindings :: a, p, q);
    CompilePreservesMeaning(w, w, bindings, p);
    CompilePreservesMeaning(w, w, bindings, q);
  }

  // ---------- sources and common table expressions by name ----------

  function Over<C, S>(name: string, clauses: C): Query<C, S> {
    Select(With(false, []), [Table(name, None)], [], clauses)
  }

  lemma {:induction false} NodesOfOver<C, S>(visible: set<string>, name: string, clauses: C)
    ensures Nodes(visible, Over<C, S>(name, clauses)) ==
            {if name in visible then CteReference(name) else Source(name, None)}
  {
    var q := Over<C, S>(name, clauses);
    assert visible + CteNames(q.withs.ctes) == visible;
    assert NodesOfFrom(visible, q.from) == NodesOfItem(visible, q.from[0]) + NodesOfFrom(visible, q.from[1..]);
  }

  /** A source is accepted and read under its alias in any case; any other name is refused. */
  lemma {:induction false} SourceIsFound<C, S, D(!new)>(w: World<C, S, D>, bindings: map<string, S>, name: string,
      clauses: C)
    ensures var q := Over<C, S>(name, clauses);
            if Fold(name) in bindings then
              && Validate(q, bindings.Keys) == None
              && Eval(w, map[], map[], Compile(bindings, q)) ==
                   w.within([], w.select(clauses, [(if w.refers(clauses, Fold(name)) then Some(Fold(name)) else None,
                                                    w.storage(bindings[Fold(name)]))], []))
            else Validate(q, bindings.Keys) == Some(UnknownAlias)
  {
    var q := Over<C, S>(name, clauses);
    NodesOfOver<C, S>({}, name, clauses);
    if Fold(name) in bindings {
      SourceIsRead(w, bindings, name, clauses);
    } else {
      assert Source(name, None) in Nodes({}, q);
    }
  }

  lemma {:induction false} SourceIsRead<C, S, D(!new)>(w: World<C, S, D>, bindings: map<string, S>, name: string,
      clauses: C)
    requires Fold(name) in bindings
    ensures Eval(w, map[], map[], Compile(bindings, Over(name, clauses))) ==
              w.within([], w.select(clauses, [(if w.refers(clauses, Fold(name)) then Some(Fold(name)) else None,
                                               w.storage(bindings[Fold(name)]))], []))
  {
    var bind := StorageBinder<C, S>(bindings);
    var q := Over<C, S>(name, clauses);
    var item: FromItem<C, S> := Derived(Storage(bindings[Fold(name)]), Some(name));
    assert ScopeFrom(bind, {} + CteNames(q.withs.ctes), q.from) == [item];
    assert ScopeAll(bind, {} + CteNames(q.withs.ctes), q.subqueries) == [];
    var compiled := Select(With(false, []), [item], [], clauses);
    assert ScopeWith(bind, {}, false, q.withs.ctes) == [];
    assert Compile(bindings, q) == compiled;
    assert EvalItem(w, map[], map[], item) == w.storage(bindings[Fold(name)]);
    assert !OpenInFrom(w.refers, [item][1..], Fold(name)) && !OpenInAll(w.refers, compiled.subqueries, Fold(name));
    assert EvalFrom(w, map[], map[], compiled, [item]) ==
             [(Label(w.refers, compiled, [item][1..], item), EvalItem(w, map[], map[], item))];
  }

  /** FROM Roads finds the source bound to roads. */
  lemma {:induction false} RoadsIsFound<C, S, D(!new)>(w: World<C, S, D>, roads: S, clauses: C)
    requires !w.refers(clauses, "roads")
    ensures var q, bindings := Over<C, S>("Roads", clauses), map["roads" := roads];
            && Validate(q, {"roads"}) == None
            && Eval(w, map[], map[], Compile(bindings, q)) ==
                 w.within([], w.select(clauses, [(None, w.storage(roads))], []))
  {
    FoldAgreesExactlyWhen("Roads", "roads");
    assert Fold("roads") == "roads";
    SourceIsFound(w, map["roads" := roads], "Roads", clauses);
    assert (map["roads" := roads]).Keys == {"roads"};
  }

  // ---------- where a common table expression is visible ----------

  /** WITH cte AS (body) SELECT .. FROM name */
  function WithOne<C, S>(recursive: bool, cte: string, body: Query<C, S>, name: string, clauses: C): Query<C, S> {
    Select(With(recursive, [Cte(cte, body)]), [Table(name, None)], [], clauses)
  }

  lemma {:induction false} NodesOfWithOne<C, S>(visible: set<string>, recursive: bool, cte: string, body: Query<C, S>,
      name: string, clauses: C)
    ensures Nodes(visible, WithOne(recursive, cte, body, name, clauses)) ==
              {Declares(cte)} + Nodes(if recursive && body.SetOperation? then visible + {cte} else visible, body)
              + {if name in visible + {cte} then CteReference(name) else Source(name, None)}
  {
    var q := WithOne(recursive, cte, body, name, clauses);
    var ctes := q.withs.ctes;
    assert CteNames(ctes) == {cte} + CteNames(ctes[1..]) == {cte};
    assert NodesOfWith(visible, recursive, ctes) ==
             {Declares(cte)} + Nodes(BodyScope(visible, recursive, ctes[0]), body)
             + NodesOfWith(visible + {cte}, recursive, ctes[1..]);
    assert NodesOfWith(visible + {cte}, recursive, ctes[1..]) == {};
    assert NodesOfFrom(visible + {cte}, q.from) ==
             NodesOfItem(visible + {cte}, q.from[0]) + NodesOfFrom(visible + {cte}, q.from[1..]);
  }

  /** Behind its declaration a common table expression is found by its exact name, and a source by any case. */
  lemma {:induction false} CteIsVisibleBehind<C, S>(aliases: set<string>, cte: string, source: string, name: string,
      c: C, d: C)
    requires Fold(cte) !in aliases && Fold(source) in aliases && source != cte
    ensures Validate(WithOne<C, S>(false, cte, Over(source, c), name, d), aliases) ==
              if name == cte || Fold(name) in aliases then None else Some(UnknownAlias)
  {
    var q := WithOne<C, S>(false, cte, Over(source, c), name, d);
    NodesOfOver<C, S>({}, source, c);
    NodesOfWithOne<C, S>({}, false, cte, Over(source, c), name, d);
    assert Nodes({}, q) == {Declares(cte), Source(source, None),
                            if name == cte then CteReference(name) else Source(name, None)};
    if name != cte {
      assert Source(name, None) in Nodes({}, q);
    }
  }

  /** WITH cte AS (SELECT .. FROM source UNION SELECT .. FROM cte) SELECT .. FROM cte */
  function SelfUnion<C, S>(recursive: bool, cte: string, source: string, c: C): Query<C, S> {
    WithOne(recursive, cte, SetOperation(With(false, []), Over(source, c), Over(cte, c), c), cte, c)
  }

  lemma {:induction false} NodesOfSelfUnion<C, S>(recursive: bool, cte: string, source: string, c: C)
    requires source != cte
    ensures Nodes({}, SelfUnion<C, S>(recursive, cte, source, c)) ==
              {Declares(cte), Source(source, None), CteReference(cte)} + if recursive then {} else {Source(cte, None)}
  {
    var inner: set<string> := if recursive then {cte} else {};
    var body: Query<C, S> := SetOperation(With(false, []), Over(source, c), Over(cte, c), c);
    NodesOfOver<C, S>(inner, source, c);
    NodesOfOver<C, S>(inner, cte, c);
    assert inner + CteNames(body.withs.ctes) == inner;
    assert NodesOfWith(inner, false, body.withs.ctes) == {};
    assert Nodes(inner, body) == Nodes(inner, Over<C, S>(source, c)) + Nodes(inner, Over<C, S>(cte, c));
    NodesOfWithOne<C, S>({}, recursive, cte, body, cte, c);
    assert {} + {cte} == {cte};
  }

  lemma {:induction false} PlainSelfReference<C, S>(aliases: set<string>, recursive: bool, cte: string, c: C)
    requires Fold(cte) !in aliases
    ensures Validate(WithOne<C, S>(recursive, cte, Over(cte, c), cte, c), aliases) == Some(UnknownAlias)
  {
    var q := WithOne<C, S>(recursive, cte, Over(cte, c), cte, c);
    NodesOfOver<C, S>({}, cte, c);
    NodesOfWithOne<C, S>({}, recursive, cte, Over(cte, c), cte, c);
    assert Nodes({}, q) == {Declares(cte), Source(cte, None), CteReference(cte)};
    assert Source(cte, None) in Nodes({}, q);
  }

  /** A common table expression may refer to itself exactly under RECURSIVE, in a set operation. */
  lemma {:induction false} SelfReferenceExactlyWhen<C, S>(aliases: set<string>, recursive: bool, cte: string,
      source: string, c: C)
    requires Fold(cte) !in aliases && Fold(source) in aliases && source != cte
    ensures Validate(SelfUnion<C, S>(recursive, cte, source, c), aliases) ==
              if recursive then None else Some(UnknownAlias)
    ensures Validate(WithOne<C, S>(recursive, cte, Over(cte, c), cte, c), aliases) == Some(UnknownAlias)
  {
    NodesOfSelfUnion<C, S>(recursive, cte, source, c);
    if !recursive {
      assert Source(cte, None) in Nodes({}, SelfUnion<C, S>(recursive, cte, source, c));
    }
    PlainSelfReference<C, S>(aliases, recursive, cte, c);
  }

  /** A common table expression of a subquery is not visible outside it. */
  lemma {:induction false} CteStaysInside<C, S>(aliases: set<string>, cte: string, source: string, c: C)
    requires Fold(cte) !in aliases && Fold(source) in aliases && source != cte
    ensures var inside := WithOne<C, S>(false, cte, Over(source, c), cte, c);
            && Validate(Select(With(false, []), [Table(source, None)], [inside], c), aliases) == None
            && Validate(Select(With(false, []), [Table(cte, None)], [inside], c), aliases) == Some(UnknownAlias)
  {
    var inside := WithOne<C, S>(false, cte, Over(source, c), cte, c);
    NodesOfOver<C, S>({}, source, c);
    NodesOfWithOne<C, S>({}, false, cte, Over(source, c), cte, c);
    NodesOfOuter(source, inside, c);
    NodesOfOuter(cte, inside, c);
    assert Source(cte, None) in Nodes({}, Select(With(false, []), [Table(cte, None)], [inside], c));
  }

  lemma {:induction false} NodesOfOuter<C, S>(name: string, inside: Query<C, S>, c: C)
    ensures Nodes({}, Select(With(false, []), [Table(name, None)], [inside], c)) ==
              {Source(name, None)} + Nodes({}, inside)
  {
    var q := Select(With(false, []), [Table(name, None)], [inside], c);
    assert {} + CteNames(q.withs.ctes) == {};
    assert NodesOfFrom({}, q.from) == NodesOfItem({}, q.from[0]) + NodesOfFrom({}, q.from[1..]);
    assert NodesOfAll({}, q.subqueries) == Nodes({}, inside) + NodesOfAll({}, q.subqueries[1..]);
  }

  /** Foreign relations are refused, and so are common table expressions called like a source in any case. */
  lemma {:induction false} RefusedNames<C, S>(aliases: set<string>, cte: string, source: string, text: string,
      alias: Option<string>, c: C)
    requires Fold(source) in aliases
    ensures Validate<C, S>(Select(With(false, []), [Foreign(text, alias)], [], c), aliases) == Some(ForeignRelation)
    ensures Fold(cte) in aliases ==>
              Validate(WithOne<C, S>(false, cte, Over(source, c), source, c), aliases) == Some(AliasCollision)
  {
    var q: Query<C, S> := Select(With(false, []), [Foreign(text, alias)], [], c);
    assert NodesOfFrom({} + CteNames(q.withs.ctes), q.from) == {External};
    assert Nodes({}, q) == {External};
    NodesOfWithOne<C, S>({}, false, cte, Over(source, c), source, c);
    assert Declares(cte) in Nodes({}, WithOne<C, S>(false, cte, Over(source, c), source, c));
  }
}
