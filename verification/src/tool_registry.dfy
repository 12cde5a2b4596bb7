/** `core/tool_registry.py`: the registry that holds the tools by name,
    groups them by category, resolves aliases, checks declared
    dependencies and keeps per-name execution statistics.

    A tool is represented by its definition; what a tool does when it runs
    is outside the registry, so `ExecuteTool` takes the tool's response and
    the time it took as parameters.  Hooks, `batch_execute` and the
    `register_tool` decorator are not modelled. */
module ToolRegistry {
  import opened Wrappers
  import Dicts
  import Seqs
  import Text
  import StrOrder

  /** `ToolDefinition`, reduced to the fields the registry reads. */
  datatype Definition = Definition(name: string, description: string, category: string, tags: seq<string>)

  /** `ToolResponse`, reduced to what the registry produces or reads. */
  datatype Response = Response(id: string, success: bool, error: Option<string>)

  /** `ToolExecutionStats`; `lastCalled` is a timestamp in seconds. */
  datatype ExecStats = ExecStats(
    totalCalls: nat, successful: nat, failed: nat,
    totalTime: real, averageTime: real,
    lastCalled: Option<real>, errors: seq<string>)

  const FreshStats := ExecStats(0, 0, 0, 0.0, 0.0, None, [])

  /** How many error messages a statistics record keeps. */
  const KeptErrors := 10

  /** `ToolRegistry`: the tools by name, the tool names of each category,
      alias to tool name, statistics by called name, and the declared
      dependencies of a name. */
  datatype Registry = Registry(
    tools: Dicts.Dict<string, Definition>,
    categories: Dicts.Dict<string, seq<string>>,
    aliases: Dicts.Dict<string, string>,
    stats: Dicts.Dict<string, ExecStats>,
    dependencies: Dicts.Dict<string, seq<string>>)

  const Empty := Registry([], [], [], [], [])

  /** Every table is a dictionary: no key twice. */
  predicate WellFormed(r: Registry) {
    Dicts.Valid(r.tools) && Dicts.Valid(r.categories) && Dicts.Valid(r.aliases)
    && Dicts.Valid(r.stats) && Dicts.Valid(r.dependencies)
  }

  /** The counters of one statistics record agree with each other. */
  predicate StatsOk(s: ExecStats) {
    s.successful + s.failed == s.totalCalls
    && |s.errors| <= KeptErrors
    && (s.totalCalls == 0 ==> s.averageTime == 0.0 && s.lastCalled.None?)
    && (s.totalCalls > 0 ==> s.averageTime * s.totalCalls as real == s.totalTime)
  }

  /** The tool stored under a name is the tool of that name. */
  ghost predicate NamesMatch(r: Registry) {
    forall n :: Dicts.Get(r.tools, n).Some? ==> Dicts.Get(r.tools, n).value.name == n
  }

  /** `name` appears in the list of `category`. */
  predicate ListedIn(r: Registry, name: string, category: string) {
    var l := Dicts.Get(r.categories, category);
    l.Some? && name in l.value
  }

  /** Every tool is listed under its own category. */
  ghost predicate Filed(r: Registry) {
    forall n :: Dicts.Get(r.tools, n).Some? ==> ListedIn(r, n, Dicts.Get(r.tools, n).value.category)
  }

  /** No category list is empty or names a tool twice. */
  ghost predicate CategoriesOk(r: Registry) {
    forall c :: Dicts.Get(r.categories, c).Some? ==>
      |Dicts.Get(r.categories, c).value| > 0 && Seqs.Distinct(Dicts.Get(r.categories, c).value)
  }

  /** Every alias names a registered tool. */
  ghost predicate AliasesResolve(r: Registry) {
    forall a :: Dicts.Get(r.aliases, a).Some? ==> Dicts.Get(r.tools, Dicts.Get(r.aliases, a).value).Some?
  }

  /** Every registered tool has statistics, and all statistics are
      consistent. */
  ghost predicate StatsCover(r: Registry) {
    Covers(r.tools, r.stats) && AllStatsOk(r.stats)
  }

  /** What every registry reachable from `Empty` satisfies. */
  ghost predicate Inv(r: Registry) {
    WellFormed(r) && NamesMatch(r) && Filed(r) && CategoriesOk(r)
    && AliasesResolve(r) && StatsCover(r)
  }

  lemma EmptyInv()
    ensures Inv(Empty)
  {
  }

  // ---------------------------------------------------------------- lists

  /** Python's `xs.remove(x)` when `x` is present (a no-op otherwise). */
  function RemoveFirst(xs: seq<string>, x: string): (r: seq<string>)
    ensures x in xs ==> multiset(r) == multiset(xs) - multiset{x}
    ensures x !in xs ==> r == xs
  {
    if |xs| == 0 then []
    else if xs[0] == x then
      assert xs == [xs[0]] + xs[1..];
      xs[1..]
    else
      var rest := RemoveFirst(xs[1..], x);
      assert xs == [xs[0]] + xs[1..];
      assert multiset(xs) == multiset{xs[0]} + multiset(xs[1..]);
      assert multiset([xs[0]] + rest) == multiset{xs[0]} + multiset(rest);
      assert x in xs ==> x in xs[1..];
      [xs[0]] + rest
  }

  /** Removing a name from a list without duplicates removes it entirely
      and keeps every other name. */
  lemma RemoveFirstDistinct(xs: seq<string>, x: string)
    requires Seqs.Distinct(xs)
    ensures Seqs.Distinct(RemoveFirst(xs, x))
    ensures forall y :: y in RemoveFirst(xs, x) <==> y in xs && y != x
  {
    var r := RemoveFirst(xs, x);
    if x in xs {
      Seqs.DistinctMultiset(xs, x);
      assert multiset(r) <= multiset(xs);
      Seqs.SubMultisetDistinct(r, xs);
      assert multiset(r)[x] == 0;
      forall y ensures y in r <==> y in xs && y != x {
        assert y in r <==> y in multiset(r);
        assert y in xs <==> y in multiset(xs);
      }
    }
  }

  // ------------------------------------------------------------- register

  /** Maps every alias in `als` to `target`, later aliases overwriting. */
  function PutAliases(d: Dicts.Dict<string, string>, als: seq<string>, target: string): (r: Dicts.Dict<string, string>)
    ensures Dicts.Valid(d) ==> Dicts.Valid(r)
    decreases |als|
    ensures forall a :: a in als ==> Dicts.Get(r, a) == Some(target)
    ensures forall a :: a !in als ==> Dicts.Get(r, a) == Dicts.Get(d, a)
  {
    if |als| == 0 then d
    else PutAliases(Dicts.Put(d, als[0], target), als[1..], target)
  }

  /** The categories with `name` appended to the list of `category`,
      unless it is already there. */
  function File(cats: Dicts.Dict<string, seq<string>>, category: string, name: string): (r: Dicts.Dict<string, seq<string>>)
    ensures var listed := Dicts.Get(cats, category).GetOr([]);
      Dicts.Get(r, category) == Some(if name in listed then listed else listed + [name])
    ensures forall c :: c != category ==> Dicts.Get(r, c) == Dicts.Get(cats, c)
    ensures Dicts.Valid(cats) ==> Dicts.Valid(r)
  {
    var listed := Dicts.Get(cats, category).GetOr([]);
    if name in listed then cats
    else Dicts.Put(cats, category, listed + [name])
  }

  /** `register`: stores the tool under its name (overwriting a tool of the
      same name), appends the name to its category unless it is already
      there, points each alias at it, and resets its statistics.  A name
      re-registered under another category stays listed under the old one
      as well. */
  function Register(r: Registry, d: Definition, als: seq<string>): (r': Registry)
    ensures Dicts.Get(r'.tools, d.name) == Some(d)
    ensures forall n :: n != d.name ==> Dicts.Get(r'.tools, n) == Dicts.Get(r.tools, n)
    ensures ListedIn(r', d.name, d.category)
    ensures forall c :: c != d.category ==> Dicts.Get(r'.categories, c) == Dicts.Get(r.categories, c)
    ensures forall a :: a in als ==> Dicts.Get(r'.aliases, a) == Some(d.name)
    ensures forall a :: a !in als ==> Dicts.Get(r'.aliases, a) == Dicts.Get(r.aliases, a)
    ensures Dicts.Get(r'.stats, d.name) == Some(FreshStats)
    ensures forall n :: n != d.name ==> Dicts.Get(r'.stats, n) == Dicts.Get(r.stats, n)
    ensures r'.dependencies == r.dependencies
  {
    var tools := Dicts.Put(r.tools, d.name, d);
    var categories := File(r.categories, d.category, d.name);
    var aliases := PutAliases(r.aliases, als, d.name);
    var stats := Dicts.Put(r.stats, d.name, FreshStats);
    assert Dicts.Get(categories, d.category).Some? && d.name in Dicts.Get(categories, d.category).value;
    Registry(tools, categories, aliases, stats, r.dependencies)
  }

  /** Registering keeps every invariant of the registry. */
  lemma RegisterInv(r: Registry, d: Definition, als: seq<string>)
    requires Inv(r)
    ensures Inv(Register(r, d, als))
  {
    var r' := Register(r, d, als);
    RegisterWellFormed(r, d, als);
    RegisterFiled(r, d, als);
    RegisterCategories(r, d, als);
    RegisterAliases(r, d, als);
    RegisterStats(r, d, als);
  }

  lemma RegisterWellFormed(r: Registry, d: Definition, als: seq<string>)
    requires WellFormed(r) && NamesMatch(r)
    ensures WellFormed(Register(r, d, als)) && NamesMatch(Register(r, d, als))
  {
  }

  lemma RegisterFiled(r: Registry, d: Definition, als: seq<string>)
    requires Filed(r)
    ensures Filed(Register(r, d, als))
  {
    var r' := Register(r, d, als);
    forall n | Dicts.Get(r'.tools, n).Some? ensures ListedIn(r', n, Dicts.Get(r'.tools, n).value.category) {
      if n != d.name {
        var c := Dicts.Get(r.tools, n).value.category;
        assert ListedIn(r, n, c);
        if c == d.category {
          var listed := Dicts.Get(r.categories, d.category).GetOr([]);
          assert n in listed;
        }
      }
    }
  }

  lemma RegisterCategories(r: Registry, d: Definition, als: seq<string>)
    requires CategoriesOk(r)
    ensures CategoriesOk(Register(r, d, als))
  {
    var cats := Register(r, d, als).categories;
    assert cats == File(r.categories, d.category, d.name);
    forall c | Dicts.Get(cats, c).Some?
      ensures |Dicts.Get(cats, c).value| > 0 && Seqs.Distinct(Dicts.Get(cats, c).value)
    {
      if c != d.category {
        assert Dicts.Get(cats, c) == Dicts.Get(r.categories, c);
      } else {
        var listed := Dicts.Get(r.categories, d.category).GetOr([]);
        assert Seqs.Distinct(listed);
        if d.name !in listed {
          Seqs.DistinctConcat(listed, [d.name]);
        }
      }
    }
  }

  lemma RegisterAliases(r: Registry, d: Definition, als: seq<string>)
    requires AliasesResolve(r)
    ensures AliasesResolve(Register(r, d, als))
  {
    var r' := Register(r, d, als);
    forall a | Dicts.Get(r'.aliases, a).Some? ensures Dicts.Get(r'.tools, Dicts.Get(r'.aliases, a).value).Some? {
      if a !in als {
        assert Dicts.Get(r.tools, Dicts.Get(r.aliases, a).value).Some?;
      }
    }
  }

  lemma RegisterStats(r: Registry, d: Definition, als: seq<string>)
    requires StatsCover(r)
    ensures StatsCover(Register(r, d, als))
  {
    StatsPut(r.stats, d.name, FreshStats);
    CoverPut(r.tools, r.stats, d.name, d, FreshStats);
  }

  /** Every key of `tools` is a key of `stats`. */
  ghost predicate Covers<V, W>(tools: Dicts.Dict<string, V>, stats: Dicts.Dict<string, W>) {
    forall n :: Dicts.Get(tools, n).Some? ==> Dicts.Get(stats, n).Some?
  }

  lemma CoverPut<V, W>(tools: Dicts.Dict<string, V>, stats: Dicts.Dict<string, W>, n: string, v: V, w: W)
    requires Covers(tools, stats)
    ensures Covers(Dicts.Put(tools, n, v), Dicts.Put(stats, n, w))
  {
  }

  /** Every record of a statistics table is consistent. */
  ghost predicate AllStatsOk(t: Dicts.Dict<string, ExecStats>) {
    forall n :: Dicts.Get(t, n).Some? ==> StatsOk(Dicts.Get(t, n).value)
  }

  lemma StatsPut(t: Dicts.Dict<string, ExecStats>, n: string, s: ExecStats)
    requires AllStatsOk(t) && StatsOk(s)
    ensures AllStatsOk(Dicts.Put(t, n, s))
  {
    var t' := Dicts.Put(t, n, s);
    forall m | Dicts.Get(t', m).Some? ensures StatsOk(Dicts.Get(t', m).value) {
      if m != n {
        assert Dicts.Get(t', m) == Dicts.Get(t, m);
      }
    }
  }

  // ----------------------------------------------------------- unregister

  /** Whether an alias entry survives the removal of `name`. */
  function KeepAlias(name: string): ((string, string)) -> bool {
    (e: (string, string)) => e.1 != name
  }

  /** How the list `before` of a category becomes `after` when `name` is
      taken out of it: a missing list is created empty, a list without the
      name stays, the name's first occurrence is removed, and a list that
      held only the name is deleted.  A list without repeats no longer
      holds the name. */
  predicate Unfiled(before: Option<seq<string>>, name: string, after: Option<seq<string>>) {
    && (before.None? ==> after == Some([]))
    && (before.Some? && name !in before.value ==> after == before)
    && (before.Some? && name in before.value ==>
          after == if |before.value| == 1 then None else Some(RemoveFirst(before.value, name)))
    && (before.Some? && Seqs.Distinct(before.value) ==> name !in after.GetOr([]))
  }

  /** Removing a present name shortens the list by one. */
  lemma RemoveFirstLength(xs: seq<string>, x: string)
    ensures x in xs ==> |RemoveFirst(xs, x)| == |xs| - 1
    ensures Seqs.Distinct(xs) ==> x !in RemoveFirst(xs, x)
  {
    if x in xs {
      assert |multiset(RemoveFirst(xs, x))| == |multiset(xs)| - 1;
    }
    if Seqs.Distinct(xs) {
      RemoveFirstDistinct(xs, x);
    }
  }

  /** The categories after `name`, filed under `category`, is taken out:
      the name leaves the list and an emptied list goes.  A category that
      was missing is created empty, as reading a missing key of the
      source's `defaultdict` does. */
  function Unfile(cats: Dicts.Dict<string, seq<string>>, category: string, name: string): (r: Dicts.Dict<string, seq<string>>)
    requires Dicts.Valid(cats)
    ensures Dicts.Valid(r)
    ensures forall c :: c != category ==> Dicts.Get(r, c) == Dicts.Get(cats, c)
    ensures Unfiled(Dicts.Get(cats, category), name, Dicts.Get(r, category))
  {
    match Dicts.Get(cats, category)
    case None => Dicts.Put(cats, category, [])
    case Some(listed) =>
      RemoveFirstLength(listed, name);
      if name !in listed then cats
      else if |RemoveFirst(listed, name)| == 0 then Dicts.Delete(cats, category)
      else Dicts.Put(cats, category, RemoveFirst(listed, name))
  }

  /** `unregister`: a registered name loses its tool, its place in its
      category, every alias that points at it and its statistics; an
      unknown name changes nothing. */
  function Unregister(r: Registry, name: string): (r': Registry)
    requires WellFormed(r)
    ensures WellFormed(r')
    ensures Dicts.Get(r.tools, name).None? ==> r' == r
    ensures Dicts.Get(r'.tools, name).None?
    ensures forall n :: n != name ==> Dicts.Get(r'.tools, n) == Dicts.Get(r.tools, n)
    ensures Dicts.Get(r.tools, name).Some? ==> Dicts.Get(r'.stats, name).None?
    ensures forall n :: n != name ==> Dicts.Get(r'.stats, n) == Dicts.Get(r.stats, n)
    ensures forall e :: e in r'.aliases <==> e in r.aliases && (Dicts.Get(r.tools, name).Some? ==> e.1 != name)
    ensures Dicts.Get(r.tools, name).Some? ==>
      forall c :: c != Dicts.Get(r.tools, name).value.category ==> Dicts.Get(r'.categories, c) == Dicts.Get(r.categories, c)
    ensures Dicts.Get(r.tools, name).Some? ==>
      var c := Dicts.Get(r.tools, name).value.category;
      Unfiled(Dicts.Get(r.categories, c), name, Dicts.Get(r'.categories, c))
    ensures r'.dependencies == r.dependencies
  {
    match Dicts.Get(r.tools, name)
    case None => r
    case Some(d) =>
      Dicts.RetainValid(r.aliases, KeepAlias(name));
      Registry(
        Dicts.Delete(r.tools, name),
        Unfile(r.categories, d.category, name),
        Dicts.Retain(r.aliases, KeepAlias(name)),
        Dicts.Delete(r.stats, name),
        r.dependencies)
  }

  /** Unregistering keeps every invariant of the registry. */
  lemma UnregisterInv(r: Registry, name: string)
    requires Inv(r)
    ensures Inv(Unregister(r, name))
  {
    if Dicts.Get(r.tools, name).Some? {
      UnregisterFiled(r, name);
      UnregisterAliases(r, name);
      UnregisterStats(r, name);
    }
  }

  /** Under the invariants, an unregistered tool is no longer listed in its
      category, and the category goes exactly when it listed that tool
      alone. */
  lemma UnregisterUnlists(r: Registry, name: string)
    requires Inv(r) && Dicts.Get(r.tools, name).Some?
    ensures var c := Dicts.Get(r.tools, name).value.category;
            var r' := Unregister(r, name);
            && name !in Dicts.Get(r'.categories, c).GetOr([])
            && (Dicts.Get(r'.categories, c).None? <==> Dicts.Get(r.categories, c) == Some([name]))
  {
    var c := Dicts.Get(r.tools, name).value.category;
    assert ListedIn(r, name, c);
    var l := Dicts.Get(r.categories, c).value;
    if |l| == 1 {
      assert l == [name];
    }
  }

  lemma UnregisterFiled(r: Registry, name: string)
    requires Inv(r) && Dicts.Get(r.tools, name).Some?
    ensures Filed(Unregister(r, name)) && CategoriesOk(Unregister(r, name))
  {
    var r' := Unregister(r, name);
    var cat := Dicts.Get(r.tools, name).value.category;
    var listed := Dicts.Get(r.categories, cat).value;
    RemoveFirstDistinct(listed, name);
    forall n | Dicts.Get(r'.tools, n).Some? ensures ListedIn(r', n, Dicts.Get(r'.tools, n).value.category) {
      assert ListedIn(r, n, Dicts.Get(r.tools, n).value.category);
    }
    forall c | Dicts.Get(r'.categories, c).Some?
      ensures |Dicts.Get(r'.categories, c).value| > 0 && Seqs.Distinct(Dicts.Get(r'.categories, c).value)
    {
    }
  }

  lemma UnregisterAliases(r: Registry, name: string)
    requires Inv(r) && Dicts.Get(r.tools, name).Some?
    ensures AliasesResolve(Unregister(r, name))
  {
    var r' := Unregister(r, name);
    forall a | Dicts.Get(r'.aliases, a).Some? ensures Dicts.Get(r'.tools, Dicts.Get(r'.aliases, a).value).Some? {
      Dicts.RetainGet(r.aliases, KeepAlias(name), a);
    }
  }

  lemma UnregisterStats(r: Registry, name: string)
    requires Inv(r) && Dicts.Get(r.tools, name).Some?
    ensures StatsCover(Unregister(r, name))
  {
    var r' := Unregister(r, name);
    forall n | Dicts.Get(r'.stats, n).Some? ensures StatsOk(Dicts.Get(r'.stats, n).value) {
      assert Dicts.Get(r'.stats, n) == Dicts.Get(r.stats, n);
    }
  }

  /** Unregistering a tool that was just registered under a new name gives
      back the tools lookups from before, the statistics of every other
      name, and every alias except the ones the registration overwrote.
      The categories come back too unless the name was still listed under
      its category from an earlier registration: that stale entry is
      removed.  Statistics kept under the new name (from calls that used it
      as an alias) are gone. */
  lemma RegisterThenUnregister(r: Registry, d: Definition, als: seq<string>)
    requires Inv(r) && Dicts.Get(r.tools, d.name).None?
    ensures var r' := Unregister(Register(r, d, als), d.name);
      && (forall n :: Dicts.Get(r'.tools, n) == Dicts.Get(r.tools, n))
      && (forall n :: n != d.name ==> Dicts.Get(r'.stats, n) == Dicts.Get(r.stats, n))
      && (!ListedIn(r, d.name, d.category) ==> forall c :: Dicts.Get(r'.categories, c) == Dicts.Get(r.categories, c))
      && (forall a :: a !in als ==> Dicts.Get(r'.aliases, a) == Dicts.Get(r.aliases, a))
      && (forall a :: a in als ==> Dicts.Get(r'.aliases, a).None?)
  {
    RoundTripTables(r, d, als);
    RoundTripAliases(r, d, als);
    if !ListedIn(r, d.name, d.category) {
      RoundTripCategories(r, d, als);
    }
  }

  lemma RoundTripTables(r: Registry, d: Definition, als: seq<string>)
    requires Inv(r) && Dicts.Get(r.tools, d.name).None?
    ensures var r' := Unregister(Register(r, d, als), d.name);
      && (forall n :: Dicts.Get(r'.tools, n) == Dicts.Get(r.tools, n))
      && (forall n :: n != d.name ==> Dicts.Get(r'.stats, n) == Dicts.Get(r.stats, n))
  {
    RegisterWellFormed(r, d, als);
    var r1 := Register(r, d, als);
    var r' := Unregister(r1, d.name);
    forall n ensures Dicts.Get(r'.tools, n) == Dicts.Get(r.tools, n) {
      if n != d.name {
        assert Dicts.Get(r'.tools, n) == Dicts.Get(r1.tools, n);
      }
    }
    forall n | n != d.name ensures Dicts.Get(r'.stats, n) == Dicts.Get(r.stats, n) {
      assert Dicts.Get(r'.stats, n) == Dicts.Get(r1.stats, n);
    }
  }

  lemma RoundTripAliases(r: Registry, d: Definition, als: seq<string>)
    requires Inv(r) && Dicts.Get(r.tools, d.name).None?
    ensures var r' := Unregister(Register(r, d, als), d.name);
      forall a :: Dicts.Get(r'.aliases, a) == if a in als then None else Dicts.Get(r.aliases, a)
  {
    RegisterWellFormed(r, d, als);
    var r1 := Register(r, d, als);
    forall a ensures Dicts.Get(Unregister(r1, d.name).aliases, a) == if a in als then None else Dicts.Get(r.aliases, a) {
      Dicts.RetainGet(r1.aliases, KeepAlias(d.name), a);
    }
  }

  lemma RoundTripCategories(r: Registry, d: Definition, als: seq<string>)
    requires WellFormed(r) && NamesMatch(r) && CategoriesOk(r) && !ListedIn(r, d.name, d.category)
    ensures var r' := Unregister(Register(r, d, als), d.name);
      forall c :: Dicts.Get(r'.categories, c) == Dicts.Get(r.categories, c)
  {
    RegisterWellFormed(r, d, als);
    var r1 := Register(r, d, als);
    var listed := Dicts.Get(r.categories, d.category).GetOr([]);
    assert r1.categories == Dicts.Put(r.categories, d.category, listed + [d.name]);
    assert Unregister(r1, d.name).categories == Unfile(r1.categories, d.category, d.name);
    FileUnfile(r.categories, d.category, d.name);
  }

  /** Appending a name to a category and taking it out again restores the
      categories, provided the name was not listed there. */
  lemma FileUnfile(cats: Dicts.Dict<string, seq<string>>, category: string, name: string)
    requires Dicts.Valid(cats)
    requires Dicts.Get(cats, category).Some? ==> |Dicts.Get(cats, category).value| > 0
    requires name !in Dicts.Get(cats, category).GetOr([])
    ensures var listed := Dicts.Get(cats, category).GetOr([]);
      forall c :: Dicts.Get(Unfile(Dicts.Put(cats, category, listed + [name]), category, name), c) == Dicts.Get(cats, c)
  {
    var listed := Dicts.Get(cats, category).GetOr([]);
    var filed := Dicts.Put(cats, category, listed + [name]);
    RemoveFirstLast(listed, name);
    assert RemoveFirst(listed + [name], name) == listed;
    var back := Unfile(filed, category, name);
    if |listed| == 0 {
      assert back == Dicts.Delete(filed, category);
    } else {
      assert back == Dicts.Put(filed, category, listed);
    }
  }

  /** Removing a name that only the last item holds drops the last item. */
  lemma {:induction false} RemoveFirstLast(xs: seq<string>, x: string)
    requires x !in xs
    ensures RemoveFirst(xs + [x], x) == xs
  {
    if |xs| > 0 {
      assert (xs + [x])[1..] == xs[1..] + [x];
      RemoveFirstLast(xs[1..], x);
      assert xs == [xs[0]] + xs[1..];
    }
  }

  // --------------------------------------------------------------- lookup

  /** `get_tool`: the tool of that name, else the tool an alias of that
      name points at, else nothing. */
  function GetTool(r: Registry, name: string): (t: Option<Definition>)
    ensures Dicts.Get(r.tools, name).Some? ==> t == Dicts.Get(r.tools, name)
    ensures t.Some? ==>
              || (name, t.value) in r.tools
              || (Dicts.Get(r.aliases, name).Some? && (Dicts.Get(r.aliases, name).value, t.value) in r.tools)
  {
    if Dicts.Get(r.tools, name).Some? then Dicts.Get(r.tools, name)
    else if Dicts.Get(r.aliases, name).Some? then Dicts.Get(r.tools, Dicts.Get(r.aliases, name).value)
    else None
  }

  /** In a consistent registry a lookup succeeds exactly for tool names and
      aliases. */
  lemma GetToolFinds(r: Registry, name: string)
    requires Inv(r)
    ensures GetTool(r, name).Some? <==> Dicts.Get(r.tools, name).Some? || Dicts.Get(r.aliases, name).Some?
  {
  }

  /** After registering, the tool is found by its name, and by each of its
      aliases unless the alias is itself the name of a tool. */
  lemma RegisterThenGet(r: Registry, d: Definition, als: seq<string>, a: string)
    requires a in als
    ensures GetTool(Register(r, d, als), d.name) == Some(d)
    ensures a != d.name && Dicts.Get(r.tools, a).None? ==> GetTool(Register(r, d, als), a) == Some(d)
    ensures a != d.name && Dicts.Get(r.tools, a).Some? ==> GetTool(Register(r, d, als), a) == Dicts.Get(r.tools, a)
  {
  }

  /** After unregistering a name, looking it up finds nothing, unless it is
      also an alias of another tool. */
  lemma UnregisterThenGet(r: Registry, name: string)
    requires Inv(r) && Dicts.Get(r.tools, name).Some?
    ensures var t := GetTool(Unregister(r, name), name);
      && (Dicts.Get(r.aliases, name).None? || Dicts.Get(r.aliases, name) == Some(name) ==> t.None?)
      && (Dicts.Get(r.aliases, name).Some? && Dicts.Get(r.aliases, name).value != name ==>
            t == Dicts.Get(r.tools, Dicts.Get(r.aliases, name).value) && t.Some?)
  {
    var r' := Unregister(r, name);
    Dicts.RetainGet(r.aliases, KeepAlias(name), name);
  }

  // -------------------------------------------------------------- listing

  predicate Hidden(d: Definition) {
    Text.IsPrefix("_", d.name)
  }

  function NameOf(d: Definition): string {
    d.name
  }

  /** The tool stored under `n`, if any. */
  function ToolNamed(r: Registry, n: string): Option<Definition> {
    Dicts.Get(r.tools, n)
  }

  /** `list_tools`: the tools of `category` (every tool when it is empty),
      without the names starting with "_" unless `includeHidden`, sorted by
      name.  A category lists names, so a tool re-registered elsewhere
      still shows up under its old category. */
  function ListTools(r: Registry, category: string, includeHidden: bool): (ds: seq<Definition>)
    ensures StrOrder.SortedBy(ds, NameOf)
  {
    var pool := Pool(r, category);
    var shown := if includeHidden then pool else Seqs.Filter(pool, d => !Hidden(d));
    StrOrder.SortBy(shown, NameOf)
  }

  /** In a consistent registry a definition is listed exactly when it is a
      registered tool, visible, and filed under the category asked for. */
  lemma ListToolsMembers(r: Registry, category: string, includeHidden: bool, d: Definition)
    requires Inv(r)
    ensures d in ListTools(r, category, includeHidden) <==>
      Dicts.Get(r.tools, d.name) == Some(d) && (includeHidden || !Hidden(d))
      && (category == "" || ListedIn(r, d.name, category))
  {
    var pool := Pool(r, category);
    var shown := if includeHidden then pool else Seqs.Filter(pool, d => !Hidden(d));
    assert ListTools(r, category, includeHidden) == StrOrder.SortBy(shown, NameOf);
    StrOrder.SortByMembers(shown, NameOf);
    assert d in shown <==> d in pool && (includeHidden || !Hidden(d));
    PoolMembers(r, category, d);
  }

  /** The definitions `list_tools` starts from, before hiding and sorting. */
  function Pool(r: Registry, category: string): seq<Definition> {
    if category != "" then Seqs.Choose(Dicts.Get(r.categories, category).GetOr([]), n => ToolNamed(r, n))
    else Dicts.Values(r.tools)
  }

  lemma PoolMembers(r: Registry, category: string, d: Definition)
    requires WellFormed(r) && NamesMatch(r)
    ensures d in Pool(r, category) <==>
      Dicts.Get(r.tools, d.name) == Some(d) && (category == "" || ListedIn(r, d.name, category))
  {
    if category != "" {
      var names := Dicts.Get(r.categories, category).GetOr([]);
      Seqs.ChooseMembers(names, n => ToolNamed(r, n), d);
      if Dicts.Get(r.tools, d.name) == Some(d) && ListedIn(r, d.name, category) {
        var k :| 0 <= k < |names| && names[k] == d.name;
      }
    } else {
      if d in Dicts.Values(r.tools) {
        var k :| 0 <= k < |r.tools| && r.tools[k].1 == d;
        Dicts.GetEntry(r.tools, k);
      }
      if Dicts.Get(r.tools, d.name) == Some(d) {
        var k :| 0 <= k < |r.tools| && r.tools[k] == (d.name, d);
        assert Dicts.Values(r.tools)[k] == d;
      }
    }
  }

  /** A tool moved to another category by re-registering is still listed
      under the category it left. */
  lemma StaleCategoryListing(r: Registry, d: Definition, e: Definition)
    requires Inv(r) && d.name == e.name && d.category != e.category && d.category != ""
    ensures var r' := Register(Register(r, d, []), e, []);
      e in ListTools(r', d.category, true) && e in ListTools(r', e.category, true)
  {
    var r1 := Register(r, d, []);
    RegisterInv(r, d, []);
    var r' := Register(r1, e, []);
    RegisterInv(r1, e, []);
    assert ListedIn(r1, d.name, d.category);
    ListToolsMembers(r', d.category, true, e);
    ListToolsMembers(r', e.category, true, e);
  }

  /** `list_categories`: the category names, sorted. */
  function ListCategories(r: Registry): (cs: seq<string>)
    ensures StrOrder.SortedBy(cs, (c: string) => c)
    ensures forall c :: c in cs <==> Dicts.Get(r.categories, c).Some?
  {
    var keys := Dicts.Keys(r.categories);
    StrOrder.SortByMembers(keys, (c: string) => c);
    StrOrder.SortBy(keys, (c: string) => c)
  }

  // ------------------------------------------------------------ searching

  /** The lower-cased query occurs in the lower-cased name, description or
      one of the tags. */
  predicate Matches(d: Definition, q: string) {
    Text.Contains(Text.Lower(d.name), q) || Text.Contains(Text.Lower(d.description), q)
    || exists i :: 0 <= i < |d.tags| && Text.Contains(Text.Lower(d.tags[i]), q)
  }

  /** `search_tools`: the registered tools matching the query, ignoring
      case, sorted by name. */
  function SearchTools(r: Registry, query: string): (ds: seq<Definition>)
    ensures StrOrder.SortedBy(ds, NameOf)
    ensures forall d :: d in ds <==> Found(r, Text.Lower(query), d)
  {
    var q := Text.Lower(query);
    var found := Seqs.Filter(Dicts.Values(r.tools), d => Matches(d, q));
    var ds := StrOrder.SortBy(found, NameOf);
    StrOrder.SortByMembers(found, NameOf);
    assert forall d :: d in found <==> Found(r, q, d);
    ds
  }

  /** `d` is a registered tool matching the lower-cased query `q`. */
  predicate Found(r: Registry, q: string, d: Definition) {
    d in Dicts.Values(r.tools) && Matches(d, q)
  }

  lemma LowerLower(s: string)
    ensures Text.Lower(Text.Lower(s)) == Text.Lower(s)
  {
  }

  /** The query's case does not matter. */
  lemma SearchIgnoresCase(r: Registry, query: string)
    ensures SearchTools(r, Text.Lower(query)) == SearchTools(r, query)
  {
    LowerLower(query);
  }

  /** The empty query finds every tool. */
  lemma SearchEmptyFindsAll(r: Registry)
    ensures multiset(SearchTools(r, "")) == multiset(Dicts.Values(r.tools))
  {
    var q := Text.Lower("");
    assert q == "";
    forall d | d in Dicts.Values(r.tools) ensures Matches(d, q) {
      assert Text.IsPrefix("", Text.Lower(d.name));
    }
    Seqs.FilterAll(Dicts.Values(r.tools), d => Matches(d, q));
  }

  // --------------------------------------------------------- dependencies

  /** `set_dependency`: replaces the declared dependencies of a name. */
  function SetDependency(r: Registry, name: string, deps: seq<string>): (r': Registry)
    ensures Dicts.Get(r'.dependencies, name) == Some(deps)
    ensures forall n :: n != name ==> Dicts.Get(r'.dependencies, n) == Dicts.Get(r.dependencies, n)
    ensures r'.tools == r.tools && r'.categories == r.categories && r'.aliases == r.aliases && r'.stats == r.stats
    ensures WellFormed(r) ==> WellFormed(r')
  {
    r.(dependencies := Dicts.Put(r.dependencies, name, deps))
  }

  /** Every name in `deps` is a registered tool. */
  predicate AllRegistered(r: Registry, deps: seq<string>) {
    forall i :: 0 <= i < |deps| ==> Dicts.Get(r.tools, deps[i]).Some?
  }

  /** `check_dependencies`: a name without declared dependencies passes; one
      with dependencies passes when each of them is a registered tool. */
  function CheckDependencies(r: Registry, name: string): (ok: bool)
    ensures Dicts.Get(r.dependencies, name).None? ==> ok
    ensures Dicts.Get(r.dependencies, name).Some? ==>
              (ok <==> forall dep :: dep in Dicts.Get(r.dependencies, name).value ==> Dicts.Get(r.tools, dep).Some?)
  {
    match Dicts.Get(r.dependencies, name)
    case None => true
    case Some(deps) => FirstMissing(r, deps, 0).None?
  }

  /** The position of the first dependency from `i` on that is not
      registered, as the source's loop finds it. */
  function FirstMissing(r: Registry, deps: seq<string>, i: nat): (k: Option<nat>)
    requires i <= |deps|
    ensures k.None? <==> forall j :: i <= j < |deps| ==> Dicts.Get(r.tools, deps[j]).Some?
    ensures k.Some? ==> i <= k.value < |deps| && Dicts.Get(r.tools, deps[k.value]).None?
    decreases |deps| - i
  {
    if i == |deps| then None
    else if Dicts.Get(r.tools, deps[i]).None? then Some(i)
    else FirstMissing(r, deps, i + 1)
  }

  /** Declaring no dependencies always passes; declaring a name that is
      then unregistered fails. */
  lemma DependenciesFollowRegistration(r: Registry, name: string, dep: string, deps: seq<string>)
    requires WellFormed(r) && dep in deps
    ensures CheckDependencies(SetDependency(r, name, []), name)
    ensures !CheckDependencies(Unregister(SetDependency(r, name, deps), dep), name)
  {
  }

  // ------------------------------------------------------------ execution

  /** The statistics after one more call that took `elapsed` seconds,
      started at `now` and answered with `resp`.  A failure with a
      non-empty error message appends it, keeping the last ten. */
  function Record(s: ExecStats, resp: Response, elapsed: real, now: real): (s': ExecStats)
    ensures s'.totalCalls == s.totalCalls + 1
    ensures s'.successful == s.successful + (if resp.success then 1 else 0)
    ensures s'.failed == s.failed + (if resp.success then 0 else 1)
    ensures s'.totalTime == s.totalTime + elapsed
    ensures s'.averageTime * s'.totalCalls as real == s'.totalTime
    ensures s'.lastCalled == Some(now)
    ensures |s'.errors| <= KeptErrors || s'.errors == s.errors
    ensures Logged(resp) ==> s'.errors == Seqs.PySuffix(s.errors + [resp.error.value], KeptErrors)
    ensures !Logged(resp) ==> s'.errors == s.errors
    ensures StatsOk(s) ==> StatsOk(s')
  {
    var total := s.totalCalls + 1;
    var time := s.totalTime + elapsed;
    var errors :=
      if Logged(resp) then
        var more := s.errors + [resp.error.value];
        if |more| > KeptErrors then Seqs.PySuffix(more, KeptErrors) else more
      else s.errors;
    DivTimes(time, total);
    ExecStats(total, s.successful + (if resp.success then 1 else 0), s.failed + (if resp.success then 0 else 1),
              time, time / total as real, Some(now), errors)
  }

  /** A failed response whose error message is non-empty. */
  predicate Logged(resp: Response) {
    !resp.success && resp.error.Some? && resp.error.value != ""
  }

  lemma DivTimes(x: real, n: nat)
    requires n > 0
    ensures (x / n as real) * n as real == x
  {
  }

  /** `execute_tool`: an unknown name and a name whose declared
      dependencies are not all registered are refused without touching the
      statistics; otherwise the tool's response is passed back and the
      statistics kept under the called name (which may be an alias) record
      the call. */
  function ExecuteTool(r: Registry, name: string, id: string, resp: Response, elapsed: real, now: real): (out: (Response, Registry))
    ensures GetTool(r, name).None? ==> out == (Response(id, false, Some("工具不存在: " + name)), r)
    ensures GetTool(r, name).Some? && !CheckDependencies(r, name) ==>
              out == (Response(id, false, Some("工具 " + name + " 依赖检查失败")), r)
    ensures GetTool(r, name).Some? && CheckDependencies(r, name) ==>
              && out.0 == resp
              && out.1.tools == r.tools && out.1.categories == r.categories
              && out.1.aliases == r.aliases && out.1.dependencies == r.dependencies
              && Dicts.Get(out.1.stats, name) == Some(Record(Dicts.Get(r.stats, name).GetOr(FreshStats), resp, elapsed, now))
              && forall n :: n != name ==> Dicts.Get(out.1.stats, n) == Dicts.Get(r.stats, n)
  {
    if GetTool(r, name).None? then (Response(id, false, Some("工具不存在: " + name)), r)
    else if !CheckDependencies(r, name) then (Response(id, false, Some("工具 " + name + " 依赖检查失败")), r)
    else
      var s := Dicts.Get(r.stats, name).GetOr(FreshStats);
      (resp, r.(stats := Dicts.Put(r.stats, name, Record(s, resp, elapsed, now))))
  }

  /** Executing keeps every invariant of the registry. */
  lemma ExecuteInv(r: Registry, name: string, id: string, resp: Response, elapsed: real, now: real)
    requires Inv(r)
    ensures Inv(ExecuteTool(r, name, id, resp, elapsed, now).1)
  {
    var r' := ExecuteTool(r, name, id, resp, elapsed, now).1;
    if GetTool(r, name).None? || !CheckDependencies(r, name) {
      assert r' == r;
    } else {
      var s := Dicts.Get(r.stats, name).GetOr(FreshStats);
      assert StatsOk(s);
      var t := Record(s, resp, elapsed, now);
      assert r' == r.(stats := Dicts.Put(r.stats, name, t));
      StatsPutInv(r, name, t);
    }
  }

  /** Storing a consistent statistics record keeps every invariant. */
  lemma StatsPutInv(r: Registry, name: string, t: ExecStats)
    requires Inv(r) && StatsOk(t)
    ensures Inv(r.(stats := Dicts.Put(r.stats, name, t)))
  {
    StatsPut(r.stats, name, t);
    CoverPutRight(r.tools, r.stats, name, t);
    StatsOnly(r, Dicts.Put(r.stats, name, t));
  }

  /** Replacing the statistics table touches no other invariant. */
  lemma StatsOnly(r: Registry, stats: Dicts.Dict<string, ExecStats>)
    requires Inv(r) && Dicts.Valid(stats) && Covers(r.tools, stats) && AllStatsOk(stats)
    ensures Inv(r.(stats := stats))
  {
    var r' := r.(stats := stats);
    assert NamesMatch(r') && Filed(r') && CategoriesOk(r') && AliasesResolve(r');
  }

  lemma CoverPutRight<V, W>(tools: Dicts.Dict<string, V>, stats: Dicts.Dict<string, W>, n: string, w: W)
    requires Covers(tools, stats)
    ensures Covers(tools, Dicts.Put(stats, n, w))
  {
  }

  /** A call through an alias is counted under the alias: the statistics of
      the tool it points at do not change, and the dependencies declared
      for that tool are not consulted. */
  lemma AliasCallCountedApart(r: Registry, a: string, id: string, resp: Response, elapsed: real, now: real)
    requires Inv(r) && Dicts.Get(r.tools, a).None? && Dicts.Get(r.aliases, a).Some?
    requires Dicts.Get(r.dependencies, a).None?
    ensures var out := ExecuteTool(r, a, id, resp, elapsed, now);
      && out.0 == resp
      && Dicts.Get(out.1.stats, Dicts.Get(r.aliases, a).value) == Dicts.Get(r.stats, Dicts.Get(r.aliases, a).value)
      && Dicts.Get(out.1.stats, a).value.totalCalls == Dicts.Get(r.stats, a).GetOr(FreshStats).totalCalls + 1
  {
  }

  /** `success_rate`: the share of successful calls, in per cent, over at
      least one call. */
  function SuccessRate(s: ExecStats): (rate: real)
    ensures s.successful <= s.totalCalls ==> 0.0 <= rate <= 100.0
    ensures rate == 0.0 <==> s.successful == 0
    ensures StatsOk(s) ==> (rate == 100.0 <==> s.totalCalls > 0 && s.failed == 0)
  {
    var n := if s.totalCalls > 1 then s.totalCalls else 1;
    RateBounds(s.successful, n);
    (s.successful as real / n as real) * 100.0
  }

  lemma RateBounds(k: nat, n: nat)
    requires n > 0
    ensures k <= n ==> 0.0 <= (k as real / n as real) * 100.0 <= 100.0
    ensures (k as real / n as real) * 100.0 == 0.0 <==> k == 0
    ensures (k as real / n as real) * 100.0 == 100.0 <==> k == n
  {
    var q := k as real / n as real;
    assert q * n as real == k as real;
  }

  // ---------------------------------------------------------- statistics

  /** `RegistryStats`: how many tools, how many names each category lists,
      the statistics table, and the time since the registry was made. */
  datatype RegistryStats = RegistryStats(
    totalTools: nat, categories: Dicts.Dict<string, nat>,
    executionStats: Dicts.Dict<string, ExecStats>, uptime: real)

  function Counts(cats: Dicts.Dict<string, seq<string>>): (r: Dicts.Dict<string, nat>)
    ensures Dicts.Keys(r) == Dicts.Keys(cats)
    ensures forall i :: 0 <= i < |cats| ==> r[i].1 == |cats[i].1|
  {
    seq(|cats|, i requires 0 <= i < |cats| => (cats[i].0, |cats[i].1|))
  }

  /** `get_stats`, with the clock reading passed in. */
  function GetStats(r: Registry, start: real, now: real): (st: RegistryStats)
    ensures st.totalTools == |r.tools|
    ensures Dicts.Keys(st.categories) == Dicts.Keys(r.categories)
    ensures st.executionStats == r.stats && st.uptime == now - start
  {
    RegistryStats(|r.tools|, Counts(r.categories), r.stats, now - start)
  }

  /** In a consistent registry the category of every tool is counted with
      at least that tool. */
  lemma CategoryCounted(r: Registry, name: string, start: real, now: real)
    requires Inv(r) && Dicts.Get(r.tools, name).Some?
    ensures var c := Dicts.Get(r.tools, name).value.category;
      Dicts.Get(GetStats(r, start, now).categories, c).Some?
      && Dicts.Get(GetStats(r, start, now).categories, c).value >= 1
  {
    var c := Dicts.Get(r.tools, name).value.category;
    var cs := GetStats(r, start, now).categories;
    assert ListedIn(r, name, c);
    var j :| 0 <= j < |r.categories| && r.categories[j] == (c, Dicts.Get(r.categories, c).value);
    assert Dicts.Valid(cs) by {
      assert forall i :: 0 <= i < |cs| ==> cs[i].0 == r.categories[i].0;
    }
    Dicts.GetEntry(cs, j);
  }
}
