/**
 The category registry of a map layer. Batches of values extend it in sorted order up to a cap; values
 keep their position, so their colours never move. Text conversions are parameters.
 */
module Categories {
  import opened Counting
  import opened Sequences
  import opened Wrappers

  const CATEGORY_CAP := 32

  datatype Category = Text(text: string) | Number(number: real) | Flag(flag: bool)

  datatype FieldType = StringField | NumberField | BooleanField

  datatype Registry = Registry(values: seq<Category>, overflow: bool)

  /** The script engine: how numbers are printed and finite ones parsed, lower case, and the order of strings. */
  datatype Engine = Engine(
    printed: real -> string,
    parsed: string -> Option<real>,
    lower: string -> string,
    textLeq: (string, string) -> bool)

  function ToText(engine: Engine, value: Category): string {
    match value
    case Text(text) => text
    case Number(number) => engine.printed(number)
    case Flag(flag) => if flag then "true" else "false"
  }

  function ToNumber(engine: Engine, value: Category): Option<real> {
    match value
    case Text(text) => engine.parsed(text)
    case Number(number) => Some(number)
    case Flag(flag) => Some(if flag then 1.0 else 0.0)
  }

  /** The value a field of this type shows, if it shows one at all. */
  function Normalize(engine: Engine, value: Category, fieldType: FieldType): Option<Category> {
    match fieldType
    case StringField =>
      var text := ToText(engine, value);
      if text == "" then None else Some(Text(text))
    case NumberField =>
      if value == Text("") then None
      else if value.Number? then Some(value)
      else
        var number := ToNumber(engine, value);
        if number.Some? then Some(Number(number.value)) else None
    case BooleanField =>
      if value.Flag? then Some(value)
      else
        var text := engine.lower(ToText(engine, value));
        if text == "true" then Some(Flag(true)) else if text == "false" then Some(Flag(false)) else None
  }

  predicate OfType(value: Category, fieldType: FieldType) {
    match fieldType
    case StringField => value.Text? && value.text != ""
    case NumberField => value.Number?
    case BooleanField => value.Flag?
  }

  function Rank(value: Category): nat {
    match value
    case Text(_) => 0
    case Number(_) => 1
    case Flag(_) => 2
  }

  /** The order of categories: by value within a type; a registry never mixes types. */
  predicate NotAfter(engine: Engine, a: Category, b: Category) {
    if Rank(a) != Rank(b) then Rank(a) <= Rank(b)
    else
      match a
      case Text(text) => engine.textLeq(text, b.text)
      case Number(number) => number <= b.number
      case Flag(flag) => !flag || b.flag
  }

  function Leq(engine: Engine): (Category, Category) -> bool {
    (a: Category, b: Category) => NotAfter(engine, a, b)
  }

  lemma {:induction false} LeqIsTotal(engine: Engine)
    requires TotalPreorder(engine.textLeq)
    ensures TotalPreorder(Leq(engine))
  {
    forall a, b ensures NotAfter(engine, a, b) || NotAfter(engine, b, a) {
      if a.Text? && b.Text? {
        assert engine.textLeq(a.text, b.text) || engine.textLeq(b.text, a.text);
      }
    }
    forall a, b, c | NotAfter(engine, a, b) && NotAfter(engine, b, c) ensures NotAfter(engine, a, c) {
      if a.Text? && b.Text? && c.Text? {
        assert engine.textLeq(a.text, b.text) && engine.textLeq(b.text, c.text);
      }
    }
  }

  // ---------- extending ----------

  ghost predicate Distinct<T>(s: seq<T>) {
    forall i, j :: 0 <= i < j < |s| ==> s[i] != s[j]
  }

  /** The normalized values of a batch that the registry does not list, each once, in order of appearance. */
  function Unseen(engine: Engine, known: seq<Category>, values: seq<Category>, fieldType: FieldType): seq<Category> {
    if values == [] then []
    else
      var front := Unseen(engine, known, values[..|values| - 1], fieldType);
      match Normalize(engine, values[|values| - 1], fieldType)
      case None => front
      case Some(category) => if category in known || category in front then front else front + [category]
  }

  function Available(registry: Registry): nat {
    if CATEGORY_CAP - |registry.values| > 0 then CATEGORY_CAP - |registry.values| else 0
  }

  function Appended(engine: Engine, registry: Registry, unseen: seq<Category>): seq<Category> {
    var sorted := Sort(unseen, Leq(engine));
    if |sorted| <= Available(registry) then sorted else sorted[..Available(registry)]
  }

  function Extend(engine: Engine, registry: Registry, values: seq<Category>, fieldType: FieldType): Registry {
    var unseen := Unseen(engine, registry.values, values, fieldType);
    Registry(registry.values + Appended(engine, registry, unseen), registry.overflow || |unseen| > Available(registry))
  }

  lemma {:induction false} ExtendFromUnseen(engine: Engine, previous: Registry, values: seq<Category>,
      fieldType: FieldType)
    requires TotalPreorder(engine.textLeq)
    ensures var unseen := Unseen(engine, previous.values, values, fieldType);
            var sorted, available := Sort(unseen, Leq(engine)), Available(previous);
            && |sorted| == |unseen|
            && Extend(engine, previous, values, fieldType) ==
               Registry(previous.values + if |sorted| <= available then sorted else sorted[..available],
                        previous.overflow || |sorted| > available)
  {
    LeqIsTotal(engine);
    SortSorts(Unseen(engine, previous.values, values, fieldType), Leq(engine));
  }

  /** A batch's new values, collected in a loop. */
  method CollectUnseen(engine: Engine, known: seq<Category>, values: seq<Category>, fieldType: FieldType)
      returns (unseen: seq<Category>)
    ensures unseen == Unseen(engine, known, values, fieldType)
  {
    unseen := [];
    for i := 0 to |values|
      invariant unseen == Unseen(engine, known, values[..i], fieldType)
    {
      assert values[..i + 1][..i] == values[..i];
      var normalized := Normalize(engine, values[i], fieldType);
      if normalized.Some? && normalized.value !in known && normalized.value !in unseen {
        unseen := unseen + [normalized.value];
      }
    }
    assert values[..|values|] == values;
  }

  /** The registry after a batch: the first of its new values that fit are appended in order. */
  method ExtendCategoryRegistry(engine: Engine, previous: Registry, values: seq<Category>, fieldType: FieldType)
      returns (next: Registry)
    requires TotalPreorder(engine.textLeq)
    ensures next == Extend(engine, previous, values, fieldType)
  {
    ExtendFromUnseen(engine, previous, values, fieldType);
    assert previous.values + [] == previous.values;
    var unseen := CollectUnseen(engine, previous.values, values, fieldType);
    if |unseen| == 0 {
      assert Sort(unseen, Leq(engine)) == [];
      return previous;
    }
    var sorted := Sort(unseen, Leq(engine));
    var available := if CATEGORY_CAP - |previous.values| > 0 then CATEGORY_CAP - |previous.values| else 0;
    var appended := if |sorted| <= available then sorted else sorted[..available];
    var overflow := previous.overflow || |sorted| > available;
    if |appended| == 0 && overflow == previous.overflow {
      assert appended == [];
      return previous;
    }
    next := Registry(previous.values + appended, overflow);
  }

  // ---------- what a batch does ----------

  /** Every normalized value of the batches so far. */
  ghost function Shown(engine: Engine, values: seq<Category>, fieldType: FieldType): set<Category> {
    set v | v in values && Normalize(engine, v, fieldType).Some? :: Normalize(engine, v, fieldType).value
  }

  ghost function Members<T>(s: seq<T>): set<T> {
    set x | x in s
  }

  lemma {:induction false} MembersOfDistinct<T>(s: seq<T>)
    requires Distinct(s)
    ensures |Members(s)| == |s|
  {
    if s == [] {
      assert Members(s) == {};
    } else {
      var front, last := s[..|s| - 1], s[|s| - 1];
      MembersOfDistinct(front);
      assert Members(s) == Members(front) + {last};
      assert last !in front;
    }
  }

  lemma {:induction false} UnseenIsNew(engine: Engine, known: seq<Category>, values: seq<Category>,
      fieldType: FieldType)
    ensures Distinct(Unseen(engine, known, values, fieldType))
    ensures Members(Unseen(engine, known, values, fieldType)) == Shown(engine, values, fieldType) - Members(known)
  {
    if values != [] {
      var front, last := values[..|values| - 1], values[|values| - 1];
      UnseenIsNew(engine, known, front, fieldType);
      assert forall v :: v in values <==> v in front || v == last;
      var before := Unseen(engine, known, front, fieldType);
      assert Members(before) == Shown(engine, front, fieldType) - Members(known);
      var normalized := Normalize(engine, last, fieldType);
      assert Shown(engine, values, fieldType) ==
               Shown(engine, front, fieldType) + if normalized.Some? then {normalized.value} else {};
      if normalized.Some? {
        assert Members(before + [normalized.value]) == Members(before) + {normalized.value};
        assert normalized.value in known <==> normalized.value in Members(known);
        assert normalized.value in before <==> normalized.value in Members(before);
      }
    } else {
      assert Shown(engine, values, fieldType) == {} && Members(Unseen(engine, known, values, fieldType)) == {};
    }
  }

  lemma {:induction false} SortKeepsDistinct(s: seq<Category>, leq: (Category, Category) -> bool)
    requires TotalPreorder(leq) && Distinct(s)
    ensures Distinct(Sort(s, leq)) && Members(Sort(s, leq)) == Members(s) && |Sort(s, leq)| == |s|
  {
    SortSorts(s, leq);
    MembersOfDistinct(s);
    assert Members(Sort(s, leq)) == Members(s);
    DistinctByCount(Sort(s, leq));
  }

  lemma {:induction false} DistinctByCount<T>(s: seq<T>)
    requires |Members(s)| == |s|
    ensures Distinct(s)
  {
    if s != [] {
      var front, last := s[..|s| - 1], s[|s| - 1];
      assert Members(s) == Members(front) + {last};
      MembersAtMost(front);
      DistinctByCount(front);
    }
  }

  lemma {:induction false} MembersAtMost<T>(s: seq<T>)
    ensures |Members(s)| <= |s|
  {
    if s != [] {
      var front, last := s[..|s| - 1], s[|s| - 1];
      assert Members(s) == Members(front) + {last};
      MembersAtMost(front);
    } else {
      assert Members(s) == {};
    }
  }

  // ---------- over every run of batches ----------

  /** The registry after these batches, and everything they showed. */
  function RunBatches(engine: Engine, batches: seq<seq<Category>>, fieldType: FieldType): Registry {
    if batches == [] then Registry([], false)
    else Extend(engine, RunBatches(engine, batches[..|batches| - 1], fieldType), batches[|batches| - 1], fieldType)
  }

  ghost function AllShown(engine: Engine, batches: seq<seq<Category>>, fieldType: FieldType): set<Category> {
    if batches == [] then {}
    else AllShown(engine, batches[..|batches| - 1], fieldType) + Shown(engine, batches[|batches| - 1], fieldType)
  }

  /** What a registry means for the values shown: all of them while they fit, the cap of them otherwise. */
  ghost predicate Represents(registry: Registry, shown: set<Category>) {
    && Distinct(registry.values)
    && Members(registry.values) <= shown
    && (if registry.overflow then |registry.values| == 32 && |shown| > 32
        else Members(registry.values) == shown && |registry.values| <= 32)
  }

  lemma {:induction false} PrefixIsFirst<T>(sorted: seq<T>, n: nat, leq: (T, T) -> bool, a: T, u: T)
    requires Sorted(sorted, leq) && n <= |sorted| && a in sorted[..n] && u in sorted && u !in sorted[..n]
    ensures leq(a, u)
  {
    forall k | 0 <= k < n ensures sorted[k] in sorted[..n] {
      assert sorted[..n][k] == sorted[k];
    }
    var i :| 0 <= i < n && sorted[..n][i] == a;
    var j :| 0 <= j < |sorted| && sorted[j] == u;
  }

  /** What is appended: new values in order, as many as fit, and none before those left out. */
  lemma {:induction false} AppendedAreFirst(engine: Engine, registry: Registry, values: seq<Category>,
      fieldType: FieldType)
    requires TotalPreorder(engine.textLeq)
    ensures var unseen := Unseen(engine, registry.values, values, fieldType);
            var appended := Appended(engine, registry, unseen);
            && Distinct(appended) && Sorted(appended, Leq(engine)) && Members(appended) <= Members(unseen)
            && |appended| == (if |unseen| <= Available(registry) then |unseen| else Available(registry))
            && (forall a, u :: a in appended && u in unseen && u !in appended ==> Leq(engine)(a, u))
            && (|unseen| <= Available(registry) ==> Members(appended) == Members(unseen))
  {
    var unseen := Unseen(engine, registry.values, values, fieldType);
    var leq, n := Leq(engine), Available(registry);
    UnseenIsNew(engine, registry.values, values, fieldType);
    LeqIsTotal(engine);
    SortKeepsDistinct(unseen, leq);
    SortSorts(unseen, leq);
    var sorted, appended := Sort(unseen, leq), Appended(engine, registry, unseen);
    assert forall a :: a in appended ==> a in sorted;
    forall a | a in appended ensures a in unseen {
      assert a in Members(sorted);
    }
    forall a, u | a in appended && u in unseen && u !in appended ensures leq(a, u) {
      assert u in Members(sorted);
      PrefixIsFirst(sorted, |appended|, leq, a, u);
    }
  }

  lemma {:induction false} ConcatDistinct<T>(a: seq<T>, b: seq<T>)
    requires Distinct(a) && Distinct(b) && Members(a) !! Members(b)
    ensures Distinct(a + b) && Members(a + b) == Members(a) + Members(b) && |Members(a + b)| == |a| + |b|
  {
    forall i, j | 0 <= i < |a| && 0 <= j < |b| ensures a[i] != b[j] {
      assert a[i] in Members(a) && b[j] in Members(b);
    }
    assert Distinct(a + b);
    MembersOfDistinct(a + b);
    assert Members(a + b) == Members(a) + Members(b);
  }

  /** The arithmetic of a batch: what was listed, what is new, what is appended, what has been shown. */
  lemma {:induction false} CountsRepresent(registry: Registry, next: Registry, shown: set<Category>,
      added: seq<Category>, appended: seq<Category>, all: set<Category>)
    requires Represents(registry, shown) && Distinct(added) && Distinct(appended)
    requires Members(added) !! Members(registry.values) && Members(appended) <= Members(added)
    requires shown <= all && Members(added) <= all
    requires !registry.overflow ==> all == shown + Members(added)
    requires |appended| == if |added| <= Available(registry) then |added| else Available(registry)
    requires |added| <= Available(registry) ==> Members(appended) == Members(added)
    requires next == Registry(registry.values + appended, registry.overflow || |added| > Available(registry))
    ensures Represents(next, all)
  {
    ConcatDistinct(registry.values, appended);
    ConcatDistinct(registry.values, added);
    SubsetCount(shown, all);
    SubsetCount(Members(registry.values + added), all);
  }

  lemma {:induction false} ExtendRepresents(engine: Engine, registry: Registry, shown: set<Category>,
      values: seq<Category>, fieldType: FieldType)
    requires TotalPreorder(engine.textLeq) && Represents(registry, shown)
    ensures Represents(Extend(engine, registry, values, fieldType), shown + Shown(engine, values, fieldType))
  {
    var unseen := Unseen(engine, registry.values, values, fieldType);
    UnseenIsNew(engine, registry.values, values, fieldType);
    AppendedAreFirst(engine, registry, values, fieldType);
    CountsRepresent(registry, Extend(engine, registry, values, fieldType), shown, unseen,
                    Appended(engine, registry, unseen),
                    shown + Shown(engine, values, fieldType));
  }

  /**
   Over every run of batches from an empty registry: the listed values are distinct, at most the cap,
   and have been shown; overflow is set if and only if more than the cap have been shown, and then
   exactly the cap are listed.
   */
  lemma {:induction false} RunRepresents(engine: Engine, batches: seq<seq<Category>>, fieldType: FieldType)
    requires TotalPreorder(engine.textLeq)
    ensures var registry, shown := RunBatches(engine, batches, fieldType), AllShown(engine, batches, fieldType);
            && Represents(registry, shown)
            && (registry.overflow <==> |shown| > 32)
  {
    if batches == [] {
      assert Members<Category>([]) == {};
    } else {
      RunRepresents(engine, batches[..|batches| - 1], fieldType);
      ExtendRepresents(engine, RunBatches(engine, batches[..|batches| - 1], fieldType),
                       AllShown(engine, batches[..|batches| - 1], fieldType), batches[|batches| - 1], fieldType);
    }
    MembersOfDistinct(RunBatches(engine, batches, fieldType).values);
  }

  /** Later batches never move or drop a value, and never take overflow back. */
  lemma {:induction false} PositionsAreStable(engine: Engine, batches: seq<seq<Category>>, n: nat, fieldType: FieldType)
    requires n <= |batches|
    ensures var early, late := RunBatches(engine, batches[..n], fieldType), RunBatches(engine, batches, fieldType);
            early.values <= late.values && (early.overflow ==> late.overflow)
    decreases |batches|
  {
    if n < |batches| {
      var front := batches[..|batches| - 1];
      assert front[..n] == batches[..n];
      PositionsAreStable(engine, front, n, fieldType);
    } else {
      assert batches[..n] == batches;
    }
  }

  /** A text that the engine lowers to the name of this flag. */
  predicate Names(engine: Engine, text: string, flag: bool) {
    engine.lower(text) == if flag then "true" else "false"
  }

  /** This value is shown as that one. */
  predicate ShownAs(engine: Engine, value: Category, category: Category) {
    match category
    case Text(text) =>
      && text != ""
      && (value.Text? ==> text == value.text) && (value.Number? ==> text == engine.printed(value.number))
      && (value == Flag(true) ==> text == "true") && (value == Flag(false) ==> text == "false")
    case Number(number) =>
      || value == Number(number)
      || (value == Flag(true) && number == 1.0) || (value == Flag(false) && number == 0.0)
      || (value.Text? && value.text != "" && engine.parsed(value.text) == Some(number))
    case Flag(flag) =>
      || value == Flag(flag)
      || (value.Text? && Names(engine, value.text, flag))
      || (value.Number? && Names(engine, engine.printed(value.number), flag))
  }

  predicate MayHold(fieldType: FieldType, category: Category) {
    match fieldType
    case StringField => category.Text?
    case NumberField => category.Number?
    case BooleanField => category.Flag?
  }

  lemma {:induction false} NormalizedExactlyWhen(engine: Engine, value: Category, fieldType: FieldType,
      category: Category)
    ensures Normalize(engine, value, fieldType) == Some(category) <==>
              MayHold(fieldType, category) && ShownAs(engine, value, category)
  {
  }

  /**
   Over every run of batches a category has been shown if and only if it has the type of the field and some
   value is shown as it: a flag as itself or by its name, a number as itself, parsed, or as 0 or 1, a text as
   printed.
   */
  lemma {:induction false} ShownExactlyWhen(engine: Engine, batches: seq<seq<Category>>, fieldType: FieldType,
      category: Category)
    ensures category in AllShown(engine, batches, fieldType) <==>
              MayHold(fieldType, category) &&
              exists i, value :: 0 <= i < |batches| && value in batches[i] && ShownAs(engine, value, category)
  {
    if batches != [] {
      var front, last := batches[..|batches| - 1], batches[|batches| - 1];
      ShownExactlyWhen(engine, front, fieldType, category);
      forall value ensures Normalize(engine, value, fieldType) == Some(category) <==>
                             MayHold(fieldType, category) && ShownAs(engine, value, category)
      {
        NormalizedExactlyWhen(engine, value, fieldType, category);
      }
      if i, value :| 0 <= i < |front| && value in front[i] && ShownAs(engine, value, category) {
        assert value in batches[i];
      }
      if value :| value in last && ShownAs(engine, value, category) {
        assert value in batches[|batches| - 1];
      }
      if i, value :| 0 <= i < |batches| && value in batches[i] && ShownAs(engine, value, category) {
        assert if i < |front| then value in front[i] else value in last;
      }
    }
  }

  /** New values stand in order: numbers by value, false before true, texts as the engine compares them. */
  lemma {:induction false} AppendedInOrder(engine: Engine, registry: Registry, values: seq<Category>,
      fieldType: FieldType, i: nat, j: nat)
    requires TotalPreorder(engine.textLeq)
    requires i < j < |Appended(engine, registry, Unseen(engine, registry.values, values, fieldType))|
    ensures var appended := Appended(engine, registry, Unseen(engine, registry.values, values, fieldType));
            match fieldType
            case StringField =>
              appended[i].Text? && appended[j].Text? && engine.textLeq(appended[i].text, appended[j].text)
            case NumberField => appended[i].Number? && appended[j].Number? && appended[i].number < appended[j].number
            case BooleanField => appended[i] == Flag(false) && appended[j] == Flag(true)
  {
    var unseen := Unseen(engine, registry.values, values, fieldType);
    var appended := Appended(engine, registry, unseen);
    AppendedAreFirst(engine, registry, values, fieldType);
    UnseenIsNew(engine, registry.values, values, fieldType);
    assert Leq(engine)(appended[i], appended[j]) && appended[i] != appended[j];
    forall k | k == i || k == j ensures OfType(appended[k], fieldType) {
      assert appended[k] in Members(appended) && appended[k] in Members(unseen);
      var v :| v in values && Normalize(engine, v, fieldType) == Some(appended[k]);
    }
  }

  /** A normalized value has the type of its field, and normalizing it again changes nothing. */
  lemma {:induction false} NormalizeIsIdempotent(engine: Engine, value: Category, fieldType: FieldType)
    requires Normalize(engine, value, fieldType).Some?
    ensures OfType(Normalize(engine, value, fieldType).value, fieldType)
    ensures Normalize(engine, Normalize(engine, value, fieldType).value, fieldType) ==
              Normalize(engine, value, fieldType)
  {
  }

  // ---------- a number no category has ----------

  const MIN_SAFE_INTEGER := -0x1F_FFFF_FFFF_FFFF

  function NumberOf(n: int): Category {
    Number(n as real)
  }

  ghost predicate Taken(values: seq<Category>, n: int) {
    NumberOf(n) in values
  }

  lemma {:induction false} TakenAreFew(values: seq<Category>, from: int, count: nat)
    requires forall i :: from <= i < from + count ==> Taken(values, i)
    ensures count <= |values|
  {
    var taken := set i | from <= i < from + count :: NumberOf(i);
    NumbersInRange(from, count);
    assert taken <= Members(values) by {
      forall x | x in taken ensures x in values {
        var i :| from <= i < from + count && x == NumberOf(i);
        assert Taken(values, i);
      }
    }
    SubsetCount(taken, Members(values));
    MembersAtMost(values);
  }

  lemma {:induction false} NumbersInRange(from: int, count: nat)
    ensures |set i | from <= i < from + count :: NumberOf(i)| == count
  {
    var all := set i | from <= i < from + count :: NumberOf(i);
    if count > 0 {
      NumbersInRange(from, count - 1);
      var fewer := set i | from <= i < from + count - 1 :: NumberOf(i);
      var last := NumberOf(from + count - 1);
      assert all == fewer + {last};
      assert last !in fewer;
    } else {
      assert all == {};
    }
  }

  /** The least integer from the smallest safe one on that no listed number equals; the search ends. */
  method NumericSentinel(values: seq<Category>) returns (sentinel: int)
    ensures !Taken(values, sentinel) && -9_007_199_254_740_991 <= sentinel <= -9_007_199_254_740_991 + |values|
    ensures forall i :: -9_007_199_254_740_991 <= i < sentinel ==> Taken(values, i)
  {
    sentinel := MIN_SAFE_INTEGER;
    while NumberOf(sentinel) in values
      invariant MIN_SAFE_INTEGER <= sentinel <= MIN_SAFE_INTEGER + |values|
      invariant forall i :: MIN_SAFE_INTEGER <= i < sentinel ==> Taken(values, i)
      decreases MIN_SAFE_INTEGER + |values| - sentinel
    {
      TakenAreFew(values, MIN_SAFE_INTEGER, sentinel + 1 - MIN_SAFE_INTEGER);
      sentinel := sentinel + 1;
    }
  }
}
